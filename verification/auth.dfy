// Accounts: the `/signup` and `/login` routes over a username-keyed user
// relation. Password hashing and token signing are foreign library calls;
// they enter the model as the function-valued fields of a `Crypto` record,
// and the few facts the routes rely on are collected in `Sound`.

module Auth {
  import opened Base

  /** The payload a token carries: the user's id and name plus the issue
      and expiry times (seconds) that signing adds. */
  datatype Claims = Claims(id: nat, username: string, iat: nat, exp: nat)

  /** `expiresIn: '24h'`. */
  const TokenLifetime: nat := 24 * 60 * 60

  /** The claims of a token issued at `now` for a user. */
  function Issue(id: nat, username: string, now: nat): (cl: Claims)
    ensures cl.id == id && cl.username == username
    ensures cl.iat == now && cl.exp - cl.iat == 86400
  {
    Claims(id, username, now, now + TokenLifetime)
  }

  /** The password hash and token primitives. `hash` takes the random salt
      as an argument; `verify` answers `None` for a bad signature or an
      expired token. */
  datatype Crypto = Crypto(
    hash: (string, nat) -> string,
    compare: (string, string) -> bool,
    sign: (Claims, string) -> string,
    verify: (string, string, nat) -> Option<Claims>)

  /** What the routes assume of the primitives: a password matches its own
      hash, a signature is a non-empty string, and a token verifies under
      the secret that signed it, to the claims it was signed with, until it
      expires, and not from its expiry time on (jsonwebtoken refuses a
      token once the clock reaches `exp`). */
  ghost predicate Sound(c: Crypto) {
    && (forall p: string, salt: nat :: c.compare(p, c.hash(p, salt)))
    && (forall cl: Claims, secret: string :: c.sign(cl, secret) != [])
    && (forall cl: Claims, secret: string, now: nat ::
          cl.iat <= now < cl.exp ==> c.verify(c.sign(cl, secret), secret, now) == Some(cl))
    && (forall cl: Claims, secret: string, now: nat ::
          cl.exp <= now ==> c.verify(c.sign(cl, secret), secret, now).None?)
  }

  /** `process.env.JWT_SECRET || 'secret'`: an unset or empty variable falls
      back to the literal. */
  function SecretOf(env: Option<string>): (s: string)
    ensures s != []
    ensures env.Some? && env.value != [] ==> s == env.value
    ensures !(env.Some? && env.value != []) ==> s == "secret"
  {
    if env.Some? && env.value != [] then env.value else "secret"
  }

  // ---------------------------------------------------------------------
  // The user relation.

  datatype UserRow = UserRow(id: nat, hash: string)

  /** `users`, keyed by the unique username, with the next SERIAL id. */
  datatype Users = Users(byName: map<string, UserRow>, nextId: nat)

  /** Ids are below the counter and no two users share one. */
  predicate UsersWf(u: Users) {
    && (forall n :: n in u.byName ==> u.byName[n].id < u.nextId)
    && (forall n, m :: n in u.byName && m in u.byName && n != m ==> u.byName[n].id != u.byName[m].id)
  }

  // ---------------------------------------------------------------------
  // Requests and replies.

  /** A request body after JSON parsing. */
  datatype Credentials = Credentials(username: string, password: string)

  /** `userSchema`: a non-empty username and a password of at least six
      characters. */
  predicate ValidCredentials(b: Credentials) {
    |b.username| >= 1 && |b.password| >= 6
  }

  datatype AuthReply =
    | Token(status: nat, token: string)
    | Failure(status: nat, message: string)

  const InvalidRequest := Failure(400, "Invalid request")
  const UsernameTaken := Failure(400, "Username already exists")
  const InvalidCredentials := Failure(401, "Invalid credentials")

  /** The awaited calls of a route are numbered in the order the route
      reaches them; `failAt` names the one that raises (a database error,
      a bcrypt or jsonwebtoken failure), or is `None`. A raise lands in
      the route's catch-all, which answers 400 "Invalid request". A call
      the route never reaches cannot raise. */
  predicate FaultAmong(failAt: Option<nat>, lo: nat, count: nat) {
    failAt.Some? && lo <= failAt.value < lo + count
  }

  /** The calls of `/signup`: the SELECT of the name, the hash, the INSERT
      and the signing of the token. */
  const SignupSelect: nat := 0
  const SignupHash: nat := 1
  const SignupInsert: nat := 2
  const SignupSign: nat := 3

  /** `POST /signup`: validate, refuse a taken name, store the hash of the
      password under the next id and answer 201 with a token for it. The
      route runs no transaction: when signing raises after the INSERT, the
      user stays stored although the reply is 400. */
  function Signup(u: Users, c: Crypto, env: Option<string>, body: Credentials, salt: nat, now: nat,
                  failAt: Option<nat>): (r: (AuthReply, Users))
    ensures !ValidCredentials(body) ==> r == (InvalidRequest, u)
    ensures ValidCredentials(body) && failAt != Some(SignupSelect) && body.username in u.byName ==>
              r == (UsernameTaken, u)
    ensures r.0.Token? <==> ValidCredentials(body) && body.username !in u.byName && !FaultAmong(failAt, 0, 4)
    ensures !r.0.Token? ==> r.0 == InvalidRequest || r.0 == UsernameTaken
    ensures ValidCredentials(body) && body.username !in u.byName && !FaultAmong(failAt, 0, 3) ==>
              && r.1.nextId == u.nextId + 1
              && r.1.byName == u.byName[body.username := UserRow(u.nextId, c.hash(body.password, salt))]
    ensures !(ValidCredentials(body) && body.username !in u.byName && !FaultAmong(failAt, 0, 3)) ==> r.1 == u
    ensures ValidCredentials(body) && body.username !in u.byName && failAt == Some(SignupSign) ==>
              r.0 == InvalidRequest && body.username in r.1.byName
    ensures r.0.Token? ==>
              && r.0.status == 201
              && r.0.token == c.sign(Issue(u.nextId, body.username, now), SecretOf(env))
  {
    if !ValidCredentials(body) || failAt == Some(SignupSelect) then (InvalidRequest, u)
    else if body.username in u.byName then (UsernameTaken, u)
    else if failAt == Some(SignupHash) || failAt == Some(SignupInsert) then (InvalidRequest, u)
    else
      var row := UserRow(u.nextId, c.hash(body.password, salt));
      var u' := Users(u.byName[body.username := row], u.nextId + 1);
      if failAt == Some(SignupSign) then (InvalidRequest, u')
      else (Token(201, c.sign(Issue(row.id, body.username, now), SecretOf(env))), u')
  }

  /** The calls of `/login`: the SELECT of the name, the comparison with
      the stored hash (reached only when the name exists), and the signing
      of the token (reached only when the password matches). */
  const LoginSelect: nat := 0
  const LoginCompare: nat := 1
  const LoginSign: nat := 2

  /** `POST /login`: validate, look the name up and compare the password
      with the stored hash; an unknown name and a wrong password get the
      same 401. The route only reads the relation, so it returns no new
      one. */
  function Login(u: Users, c: Crypto, env: Option<string>, body: Credentials, now: nat,
                 failAt: Option<nat>): (r: AuthReply)
    ensures !ValidCredentials(body) ==> r == InvalidRequest
    ensures ValidCredentials(body) ==>
              (r.Token? <==> body.username in u.byName
                             && c.compare(body.password, u.byName[body.username].hash)
                             && !FaultAmong(failAt, 0, 3))
    ensures r == InvalidCredentials <==>
              && ValidCredentials(body) && failAt != Some(LoginSelect)
              && (body.username !in u.byName
                  || (failAt != Some(LoginCompare) && !c.compare(body.password, u.byName[body.username].hash)))
    ensures r.Token? || r == InvalidCredentials || r == InvalidRequest
    ensures r.Token? ==>
              && r.status == 200
              && r.token == c.sign(Issue(u.byName[body.username].id, body.username, now), SecretOf(env))
  {
    if !ValidCredentials(body) || failAt == Some(LoginSelect) then InvalidRequest
    else if body.username !in u.byName then InvalidCredentials
    else if failAt == Some(LoginCompare) then InvalidRequest
    else if !c.compare(body.password, u.byName[body.username].hash) then InvalidCredentials
    else if failAt == Some(LoginSign) then InvalidRequest
    else Token(200, c.sign(Issue(u.byName[body.username].id, body.username, now), SecretOf(env)))
  }

  // ---------------------------------------------------------------------
  // Properties.

  /** Signup keeps ids distinct and below the counter, whatever raises. */
  lemma SignupKeepsUsersWf(u: Users, c: Crypto, env: Option<string>, body: Credentials, salt: nat, now: nat,
                           failAt: Option<nat>)
    requires UsersWf(u)
    ensures UsersWf(Signup(u, c, env, body, salt, now, failAt).1)
  {
    var u' := Signup(u, c, env, body, salt, now, failAt).1;
    if u' != u {
      forall n, m | n in u'.byName && m in u'.byName && n != m
        ensures u'.byName[n].id != u'.byName[m].id
      {
        if n == body.username {
          assert u'.byName[m] == u.byName[m];
        } else if m == body.username {
          assert u'.byName[n] == u.byName[n];
        }
      }
    }
  }

  /** Whoever signup stored can log in with the same password, later, and
      gets a token for the same id and name, unless a call of the login
      route raises, which gives 400. This holds too when the signup itself
      replied 400 because signing raised after the INSERT. */
  lemma SignupThenLogin(u: Users, c: Crypto, env: Option<string>, body: Credentials, salt: nat, now: nat,
                        failAt: Option<nat>, later: nat, loginFault: Option<nat>)
    requires Sound(c)
    requires ValidCredentials(body) && body.username !in u.byName
    requires !FaultAmong(failAt, SignupSelect, 3)
    ensures var u' := Signup(u, c, env, body, salt, now, failAt).1;
      Login(u', c, env, body, later, loginFault)
      == if FaultAmong(loginFault, 0, 3) then InvalidRequest
         else Token(200, c.sign(Issue(u.nextId, body.username, later), SecretOf(env)))
  {
    var u' := Signup(u, c, env, body, salt, now, failAt).1;
    assert u'.byName[body.username] == UserRow(u.nextId, c.hash(body.password, salt));
    assert c.compare(body.password, c.hash(body.password, salt));
  }

  /** Signup is not atomic: when signing raises after the INSERT, the reply
      is 400 but the name is taken, so the same signup retried is refused
      with "Username already exists". */
  lemma SignFaultTakesName(u: Users, c: Crypto, env: Option<string>, body: Credentials, salt: nat, now: nat,
                           retryFault: Option<nat>)
    requires ValidCredentials(body) && body.username !in u.byName
    requires retryFault != Some(SignupSelect)
    ensures var (reply, u') := Signup(u, c, env, body, salt, now, Some(SignupSign));
      && reply == InvalidRequest
      && Signup(u', c, env, body, salt, now, retryFault) == (UsernameTaken, u')
  {
  }

  /** A token either route hands out verifies, to the user it names,
      throughout the 24 hours after it was issued. */
  lemma IssuedTokenVerifies(c: Crypto, env: Option<string>, id: nat, username: string, now: nat, at: nat)
    requires Sound(c)
    requires now <= at < now + TokenLifetime
    ensures c.verify(c.sign(Issue(id, username, now), SecretOf(env)), SecretOf(env), at)
            == Some(Claims(id, username, now, now + 86400))
  {
    var cl := Issue(id, username, now);
    assert cl.iat <= at < cl.exp;
  }

  /** ... and no longer once those 24 hours are over. */
  lemma IssuedTokenExpires(c: Crypto, env: Option<string>, id: nat, username: string, now: nat, at: nat)
    requires Sound(c)
    requires now + TokenLifetime <= at
    ensures c.verify(c.sign(Issue(id, username, now), SecretOf(env)), SecretOf(env), at).None?
  {
    var cl := Issue(id, username, now);
    assert cl.exp <= at;
  }
}
