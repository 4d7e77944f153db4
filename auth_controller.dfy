/** Registration, login and the current-user endpoint over a store of users
    looked up by email. Password hashing and comparison (bcrypt) and token
    signing (a JSON Web Token) are library calls, passed in as functions. */
module AuthController {
  import opened Http

  /** `expiresIn: '1h'`, in seconds. */
  const TokenLifetime: int := 3600
  const UserExistsMessage: string := "User already exists"
  const InvalidCredentialsMessage: string := "Invalid credentials"

  /** A stored user: the password is kept only as its hash. */
  datatype User = User(id: string, email: string, passwordHash: string)

  /** The `user` object of a reply: id and email, never the hash. */
  datatype PublicUser = PublicUser(id: string, email: string)

  /** The claims a token is signed over: the payload `{ userId }` plus the
      issued-at and expiry times the signing library adds (the "iat" and
      "exp" claims of sections 4.1.6 and 4.1.4 of RFC 7519). */
  datatype Claims = Claims(userId: string, iat: int, exp: int)

  /** The body of a successful register or login. */
  datatype Session = Session(token: string, user: PublicUser)

  /** The body of `me`: the public user under the key `user`. */
  datatype CurrentUser = CurrentUser(user: PublicUser)

  /** Every user is stored under its own email, as a lookup by email
      finds it. */
  predicate KeyedByEmail(users: map<string, User>) {
    forall e :: e in users ==> users[e].email == e
  }

  function Public(u: User): PublicUser {
    PublicUser(u.id, u.email)
  }

  /** The claims of a token signed at `now` for one user: they name that
      user and expire one hour later. */
  function TokenClaims(userId: string, now: int): (c: Claims)
    ensures c.userId == userId && c.iat == now
    ensures c.exp - TokenLifetime == now
  {
    Claims(userId, now, now + TokenLifetime)
  }

  /** The reply login gives against a store, as a value: the method below
      is proved to give this reply, and the lemmas after it describe it. */
  function LoginReply(users: map<string, User>, email: string, password: string, now: int,
                      compare: (string, string) -> bool, sign: Claims -> string): Reply<Session>
  {
    if email !in users then Reply(400, Message(InvalidCredentialsMessage))
    else if !compare(password, users[email].passwordHash) then Reply(400, Message(InvalidCredentialsMessage))
    else Reply(200, Doc(Session(sign(TokenClaims(users[email].id, now)), Public(users[email]))))
  }

  /** An unknown email and a wrong password give the very same reply, so a
      caller cannot tell which one failed. */
  lemma LoginFailuresIndistinguishable(users: map<string, User>, unknown: string, known: string,
                                       p: string, q: string, now: int,
                                       compare: (string, string) -> bool, sign: Claims -> string)
    requires unknown !in users
    requires known in users && !compare(q, users[known].passwordHash)
    ensures LoginReply(users, unknown, p, now, compare, sign) == LoginReply(users, known, q, now, compare, sign)
    ensures LoginReply(users, unknown, p, now, compare, sign) == Reply(400, Message(InvalidCredentialsMessage))
  {
  }

  /** Login succeeds exactly when the email is known and the password
      matches its hash, and then the token names that user and lasts one
      hour, and the body carries that user's id and email. */
  lemma LoginSucceedsIff(users: map<string, User>, email: string, password: string, now: int,
                         compare: (string, string) -> bool, sign: Claims -> string)
    ensures var r := LoginReply(users, email, password, now, compare, sign);
      r.status == 200 <==> email in users && compare(password, users[email].passwordHash)
    ensures var r := LoginReply(users, email, password, now, compare, sign);
      r.status == 200 ==>
        exists c: Claims ::
          && c.userId == users[email].id && c.exp == now + TokenLifetime
          && r.body == Doc(Session(sign(c), PublicUser(users[email].id, users[email].email)))
    ensures var r := LoginReply(users, email, password, now, compare, sign);
      r.status != 200 ==> r == Reply(400, Message(InvalidCredentialsMessage))
    ensures var r := LoginReply(users, email, password, now, compare, sign);
      KeyedByEmail(users) && r.status == 200 ==> r.body.value.user.email == email
  {
    if email in users && compare(password, users[email].passwordHash) {
      var c := TokenClaims(users[email].id, now);
      assert LoginReply(users, email, password, now, compare, sign).body
          == Doc(Session(sign(c), PublicUser(users[email].id, users[email].email)));
    }
  }

  /** `me`: the authenticated user's id and email under `user`, and
      nothing else; two users that differ only in their password hash get
      the same reply. */
  function MeReply(u: User): (r: Reply<CurrentUser>)
    ensures r.status == 200 && r.body.Doc?
    ensures r.body.value.user.id == u.id && r.body.value.user.email == u.email
  {
    Reply(200, Doc(CurrentUser(Public(u))))
  }

  lemma MeHidesPassword(u: User, v: User)
    requires u.id == v.id && u.email == v.email
    ensures MeReply(u) == MeReply(v)
  {
  }

  /** The user collection. `users` maps each email to the one user with
      that email (`User.findOne({ email })`). */
  class UserStore {
    var users: map<string, User>

    predicate Valid()
      reads this
    {
      KeyedByEmail(users)
    }

    constructor()
      ensures Valid() && users == map[]
    {
      users := map[];
    }

    /** register: 400 and no change for an email already taken; otherwise
        exactly one user is added, holding `hash(password, salt)` rather
        than the password, and the reply is 201 with a token signed over the
        new id and the public part of the user. `newId` is the id the
        driver assigns, `salt` the result of `genSalt(10)`. */
    method Register(email: string, password: string, newId: string, salt: string, now: int,
                    hash: (string, string) -> string, sign: Claims -> string)
      returns (reply: Reply<Session>)
      requires Valid()
      modifies this
      ensures Valid()
      ensures email in old(users) ==>
        users == old(users) && reply == Reply(400, Message(UserExistsMessage))
      ensures email !in old(users) ==>
        && users == old(users)[email := User(newId, email, hash(password, salt))]
        && reply == Reply(201, Doc(Session(sign(TokenClaims(newId, now)), PublicUser(newId, email))))
    {
      if email in users {
        return Reply(400, Message(UserExistsMessage));
      }
      var hashedPassword := hash(password, salt);
      var user := User(newId, email, hashedPassword);
      users := users[email := user];
      var token := sign(TokenClaims(user.id, now));
      reply := Reply(201, Doc(Session(token, Public(user))));
    }

    /** login: reads the store and never changes it; a successful login
        is always as the user with the email given. */
    method Login(email: string, password: string, now: int,
                 compare: (string, string) -> bool, sign: Claims -> string)
      returns (reply: Reply<Session>)
      requires Valid()
      ensures reply == LoginReply(users, email, password, now, compare, sign)
      ensures reply.status == 200 ==> reply.body.Doc? && reply.body.value.user.email == email
    {
      if email !in users {
        return Reply(400, Message(InvalidCredentialsMessage));
      }
      var user := users[email];
      var isMatch := compare(password, user.passwordHash);
      if !isMatch {
        return Reply(400, Message(InvalidCredentialsMessage));
      }
      var token := sign(TokenClaims(user.id, now));
      reply := Reply(200, Doc(Session(token, Public(user))));
    }
  }

  /** After registering a fresh email, logging in with the same password
      succeeds as that new user, provided the hash library accepts a
      password against its own hash. */
  lemma RegisterThenLogin(users: map<string, User>, email: string, password: string, newId: string,
                          salt: string, now: int, hash: (string, string) -> string,
                          compare: (string, string) -> bool, sign: Claims -> string)
    requires email !in users
    requires compare(password, hash(password, salt))
    ensures LoginReply(users[email := User(newId, email, hash(password, salt))], email, password, now, compare, sign)
         == Reply(200, Doc(Session(sign(TokenClaims(newId, now)), PublicUser(newId, email))))
  {
  }

  /** A second registration of the same email yields the conflict reply
      whatever the password, so the first user's hash is never replaced. */
  method RegisterTwice(email: string, p1: string, p2: string, id1: string, id2: string, salt: string,
                       now: int, hash: (string, string) -> string, sign: Claims -> string)
    returns (first: Reply<Session>, second: Reply<Session>, stored: User)
    ensures first.status == 201
    ensures second == Reply(400, Message(UserExistsMessage))
    ensures stored == User(id1, email, hash(p1, salt))
  {
    var store := new UserStore();
    first := store.Register(email, p1, id1, salt, now, hash, sign);
    second := store.Register(email, p2, id2, salt, now, hash, sign);
    stored := store.users[email];
  }
}
