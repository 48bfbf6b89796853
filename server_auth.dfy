/** The server's account handlers: signup, login, logout, the session gate
    of the protected pages and the HTTP Basic check of the admin pages.
    Password hashing is an abstract stand-in and `xss` a function the
    handlers are given. */
module Auth {
  import opened Common
  import opened Text
  import opened Validation
  import opened Database

  // ---------------------------------------------------------------- hashing

  /** bcrypt reads at most this many leading bytes of a password. */
  const BcryptLimit: nat := 72

  /** The part of a password bcrypt reads. */
  function Truncated(password: string): (t: string)
    ensures |t| <= BcryptLimit && |t| <= |password| && t == password[..|t|]
    ensures |password| <= BcryptLimit ==> t == password
    ensures |password| > BcryptLimit ==> |t| == BcryptLimit
  {
    if |password| <= BcryptLimit then password else password[..BcryptLimit]
  }

  /** Stand-in for `bcrypt.hash`: a digest determined by the part of the
      password bcrypt reads. Salts and cost factors are not modelled. */
  function Hash(password: string): string {
    "$2b$" + Truncated(password)
  }

  /** Stand-in for `bcrypt.compare`. */
  function Compare(password: string, hash: string): bool {
    hash == Hash(password)
  }

  /** A password matches its own hash, and another password's hash exactly
      when the two agree on the part bcrypt reads; among passwords within
      the limit, that means no other password's. */
  lemma CompareHash(p: string, q: string)
    ensures Compare(p, Hash(p))
    ensures Compare(p, Hash(q)) <==> Truncated(p) == Truncated(q)
    ensures |p| <= BcryptLimit && |q| <= BcryptLimit ==> (Compare(p, Hash(q)) <==> p == q)
  {
    if Compare(p, Hash(q)) {
      assert Hash(p)[4..] == Truncated(p);
      assert Hash(q)[4..] == Truncated(q);
    }
  }

  /** Two passwords that share their first `BcryptLimit` characters match
      each other's hash, whatever follows. */
  lemma LongPasswordsCollide(p: string, q: string)
    requires |p| >= BcryptLimit && |q| >= BcryptLimit && p[..BcryptLimit] == q[..BcryptLimit]
    ensures Compare(q, Hash(p))
  {
  }

  // ---------------------------------------------------------------- session

  /** The part of `req.session` the application uses. */
  class Session {
    var userId: Option<nat>

    constructor ()
      ensures userId == None
    {
      userId := None;
    }
  }

  datatype Gate = Pass | RedirectToLogin

  /** `requireAuth`: the request goes on iff `session.userId` is truthy;
      otherwise the browser is sent to `/login.html`. */
  function RequireAuth(userId: Option<nat>): (g: Gate)
    ensures g == Pass <==> userId.Some? && userId.value != 0
  {
    if userId.Some? && userId.value != 0 then Pass else RedirectToLogin
  }

  /** `/logout`: the session is destroyed and the browser is sent to the
      login page. */
  method Logout(session: Session) returns (location: string)
    modifies session
    ensures session.userId == None && RequireAuth(session.userId) == RedirectToLogin
    ensures location == "/login.html"
  {
    session.userId := None;
    location := "/login.html";
  }

  // ---------------------------------------------------------------- request bodies

  /** `String(field || '')` for a body field that is absent or a string. */
  function BodyString(field: Option<string>): string {
    if field.Some? then field.value else ""
  }

  datatype SignupForm = SignupForm(username: Option<string>, email: Option<string>, password: Option<string>)

  function FormUsername(f: SignupForm): string { Trim(BodyString(f.username)) }
  function FormEmail(f: SignupForm): string { Trim(BodyString(f.email)) }
  function FormPassword(f: SignupForm): string { BodyString(f.password) }

  /** A status code and the text the client is shown. */
  datatype Reply = Reply(status: nat, message: string)

  // ---------------------------------------------------------------- signup

  datatype SignupOutcome =
    | BadRequest(message: string)
    | RedirectTo(location: string)
    | Created(userId: nat)

  function SignupReply(o: SignupOutcome): Reply {
    match o
    case BadRequest(m) => Reply(400, m)
    case RedirectTo(_) => Reply(200, "")
    case Created(_) => Reply(201, "Account created.")
  }

  /** Some stored user has the (escaped) username as username or email, or
      the (escaped) email as email: the two lookups the signup handler asks. */
  predicate AlreadyRegistered(users: seq<User>, username: string, email: string) {
    exists i :: 0 <= i < |users| && (users[i].username == username || users[i].email == username || users[i].email == email)
  }

  /** The two lookups find something exactly when the account is registered. */
  lemma LookupsFindRegistered(db: Store, username: string, email: string)
    ensures AlreadyRegistered(db.users, username, email) <==>
      db.GetUserByUsernameOrEmail(username).Some? || db.GetUserByEmail(Text(email)).Some?
  {
  }

  /** A new account whose username no earlier row holds as username or
      email is what the login lookup finds for that username. */
  lemma NewAccountFound(db: Store, username: string)
    requires |db.users| > 0 && db.users[|db.users| - 1].username == username
    requires forall i :: 0 <= i < |db.users| - 1 ==> db.users[i].username != username && db.users[i].email != username
    ensures db.GetUserByUsernameOrEmail(username) == Some(db.users[|db.users| - 1])
  {
    var found := db.GetUserByUsernameOrEmail(username);
    assert found.Some?;
    var k :| 0 <= k < |db.users| && db.users[k] == found.value;
  }

  /** The server's input checks on the trimmed fields of a form. */
  function FormCheck(form: SignupForm): Option<InputProblem> {
    ServerSignupCheck(FormUsername(form), FormEmail(form), FormPassword(form))
  }

  /** `POST /signup`: refuses a form the validation sequence rejects with that
      check's message; answers a form matching an existing account with the
      silent redirect to the login page, changing nothing; otherwise stores
      one new user with the escaped names and the hashed password and logs
      the session in as that user. */
  method Signup(db: Store, session: Session, xss: string -> string, form: SignupForm)
    returns (out: SignupOutcome)
    requires db.Valid()
    modifies db, session
    ensures db.Valid()
    ensures FormCheck(form).Some? ==> out == BadRequest(InputMessage(FormCheck(form).value))
    ensures out.BadRequest? <==> FormCheck(form).Some?
    ensures FormCheck(form).None? && !AlreadyRegistered(old(db.users), xss(FormUsername(form)), xss(FormEmail(form))) ==>
      out.Created?
    ensures out.RedirectTo? <==>
      FormCheck(form).None?
      && AlreadyRegistered(old(db.users), xss(FormUsername(form)), xss(FormEmail(form)))
    ensures out.RedirectTo? ==> out.location == "/login.html"
    ensures !out.Created? ==> unchanged(db) && unchanged(session)
    ensures out.Created? ==>
      out.userId == old(db.nextUserId)
      && db.users == old(db.users) + [User(out.userId, xss(FormUsername(form)), xss(FormEmail(form)), Hash(FormPassword(form)), old(db.clock))]
      && db.submissions == old(db.submissions) && db.progress == old(db.progress)
      && session.userId == Some(out.userId) && RequireAuth(session.userId) == Pass
      && db.GetUserByUsernameOrEmail(xss(FormUsername(form))) == Some(db.users[|db.users| - 1])
  {
    var problem := FormCheck(form);
    if problem.Some? {
      return BadRequest(InputMessage(problem.value));
    }
    out := Register(db, session, xss(FormUsername(form)), xss(FormEmail(form)), Hash(FormPassword(form)));
  }

  /** The part of the handler after the input checks, on the escaped
      username and email and the hashed password. */
  method Register(db: Store, session: Session, u: string, e: string, hash: string)
    returns (out: SignupOutcome)
    requires db.Valid()
    modifies db, session
    ensures db.Valid()
    ensures out.RedirectTo? || out.Created?
    ensures out.RedirectTo? <==> AlreadyRegistered(old(db.users), u, e)
    ensures out.RedirectTo? ==> out.location == "/login.html" && unchanged(db) && unchanged(session)
    ensures out.Created? ==>
      out.userId == old(db.nextUserId)
      && db.users == old(db.users) + [User(out.userId, u, e, hash, old(db.clock))]
      && db.submissions == old(db.submissions) && db.progress == old(db.progress)
      && session.userId == Some(out.userId) && RequireAuth(session.userId) == Pass
      && db.GetUserByUsernameOrEmail(u) == Some(db.users[|db.users| - 1])
  {
    LookupsFindRegistered(db, u, e);
    var existing := db.GetUserByUsernameOrEmail(u);
    if existing.None? {
      existing := db.GetUserByEmail(Text(e));
    }
    if existing.Some? {
      return RedirectTo("/login.html");
    }
    var created := db.CreateUser(Text(u), Text(e), Text(hash));
    assert created.Ok?;
    assert db.users[|db.users| - 1] == created.value;
    NewAccountFound(db, u);
    session.userId := Some(created.value.id);
    out := Created(created.value.id);
  }

  // ---------------------------------------------------------------- login

  datatype LoginForm = LoginForm(username: Option<string>, password: Option<string>)

  datatype LoginOutcome = MissingCredentials | InvalidCredentials | LoggedIn(userId: nat)

  function LoginReply(o: LoginOutcome): Reply {
    match o
    case MissingCredentials => Reply(400, "Missing credentials.")
    case InvalidCredentials => Reply(401, "Invalid credentials.")
    case LoggedIn(_) => Reply(200, "Logged in.")
  }

  /** The login decision on the trimmed username, the password and the
      user the lookup found. */
  function LoginDecision(username: string, password: string, found: Option<User>): (o: LoginOutcome)
    ensures o == MissingCredentials <==> username == "" || password == ""
    ensures o.LoggedIn? <==> username != "" && password != "" && found.Some? && Compare(password, found.value.passwordHash)
    ensures o.LoggedIn? ==> o.userId == found.value.id
  {
    if username == "" || password == "" then MissingCredentials
    else if found.None? then InvalidCredentials
    else if !Compare(password, found.value.passwordHash) then InvalidCredentials
    else LoggedIn(found.value.id)
  }

  /** An unknown account and a wrong password get the same reply. */
  lemma LoginFailuresIndistinguishable(username: string, password: string, user: User)
    requires username != "" && password != ""
    requires user.passwordHash != Hash(password)
    ensures LoginReply(LoginDecision(username, password, None)) == LoginReply(LoginDecision(username, password, Some(user)))
    ensures LoginReply(LoginDecision(username, password, None)) == Reply(401, "Invalid credentials.")
  {
  }

  /** The password an account was created with logs into it. */
  lemma LoginWithSignupPassword(username: string, password: string, user: User)
    requires username != "" && password != ""
    requires user.passwordHash == Hash(password)
    ensures LoginDecision(username, password, Some(user)) == LoggedIn(user.id)
  {
    CompareHash(password, password);
  }

  /** `POST /login`: the decision on the account found by username or email;
      only a successful login touches the session. */
  method Login(db: Store, session: Session, xss: string -> string, form: LoginForm)
    returns (out: LoginOutcome)
    requires db.Valid()
    modifies session
    ensures out == LoginDecision(Trim(BodyString(form.username)), BodyString(form.password),
                                 db.GetUserByUsernameOrEmail(xss(Trim(BodyString(form.username)))))
    ensures out.LoggedIn? ==> session.userId == Some(out.userId) && RequireAuth(session.userId) == Pass
    ensures !out.LoggedIn? ==> unchanged(session)
  {
    var username := Trim(BodyString(form.username));
    var password := BodyString(form.password);
    if username == "" || password == "" {
      return MissingCredentials;
    }
    var user := db.GetUserByUsernameOrEmail(xss(username));
    if user.None? {
      return InvalidCredentials;
    }
    if !Compare(password, user.value.passwordHash) {
      return InvalidCredentials;
    }
    session.userId := Some(user.value.id);
    out := LoggedIn(user.value.id);
  }

  // ---------------------------------------------------------------- admin Basic auth

  /** `process.env.X || fallback`. */
  function EnvOr(env: Option<string>, fallback: string): (r: string)
    ensures env.Some? && env.value != "" ==> r == env.value
    ensures !(env.Some? && env.value != "") ==> r == fallback
  {
    if env.Some? && env.value != "" then env.value else fallback
  }

  /** The credential test as written: the decoded string is split at every
      ':' and the first two pieces are compared with the configured user and
      password. */
  function CredentialsMatchAsWritten(decoded: string, adminUser: string, adminPass: string): bool {
    var parts := Split(decoded, ':');
    parts[0] == adminUser && |parts| >= 2 && parts[1] == adminPass
  }

  /** As written, a configured password holding ':' is refused even when
      sent exactly. */
  lemma ColonPasswordRefused(adminUser: string, adminPass: string)
    requires ':' in adminPass
    ensures !CredentialsMatchAsWritten(adminUser + ":" + adminPass, adminUser, adminPass)
  {
  }

  lemma ColonPasswordExample()
    ensures !CredentialsMatchAsWritten("admin:change:me", "admin", "change:me")
  {
    ColonPasswordRefused("admin", "change:me");
    assert "admin" + ":" + "change:me" == "admin:change:me";
  }

  /** The credential test with the user-id ending at the first ':' and the
      rest of the string as the password, as section 2 of RFC 7617 reads the
      decoded user-pass. */
  function CredentialsMatch(decoded: string, adminUser: string, adminPass: string): bool {
    match IndexOf(decoded, ':')
    case None => false
    case Some(k) => decoded[..k] == adminUser && decoded[k + 1..] == adminPass
  }

  /** The corrected test accepts exactly the configured pair: any password,
      and any user name without a ':'. */
  lemma CredentialsMatchExactly(decoded: string, adminUser: string, adminPass: string)
    requires ':' !in adminUser
    ensures CredentialsMatch(decoded, adminUser, adminPass) <==> decoded == adminUser + ":" + adminPass
  {
    var sent := adminUser + ":" + adminPass;
    if decoded == sent {
      assert sent[|adminUser|] == ':';
      forall j | 0 <= j < |adminUser| ensures sent[j] != ':' {
        assert sent[j] == adminUser[j];
      }
      assert sent[..|adminUser|] == adminUser;
      assert sent[|adminUser| + 1..] == adminPass;
    }
    if CredentialsMatch(decoded, adminUser, adminPass) {
      var k := IndexOf(decoded, ':').value;
      assert decoded == decoded[..k] + [':'] + decoded[k + 1..];
    }
  }

  /** Where both halves are free of ':', the test as written and the
      corrected test agree on the exact pair. */
  lemma AsWrittenAcceptsPlainPair(adminUser: string, adminPass: string)
    requires ':' !in adminUser && ':' !in adminPass
    ensures CredentialsMatchAsWritten(adminUser + ":" + adminPass, adminUser, adminPass)
    ensures CredentialsMatch(adminUser + ":" + adminPass, adminUser, adminPass)
  {
    SplitAtFirst(adminUser, adminPass, ':');
    SplitWithoutSeparator(adminPass, ':');
    CredentialsMatchExactly(adminUser + ":" + adminPass, adminUser, adminPass);
  }

  /** As written, a third ':'-separated field after the configured pair is
      ignored, so the test admits strings that are not the pair; the
      corrected test refuses them. */
  lemma TrailingFieldAdmittedAsWritten(adminUser: string, adminPass: string, extra: string)
    requires ':' !in adminUser && ':' !in adminPass
    ensures CredentialsMatchAsWritten(adminUser + ":" + adminPass + ":" + extra, adminUser, adminPass)
    ensures !CredentialsMatch(adminUser + ":" + adminPass + ":" + extra, adminUser, adminPass)
  {
    var decoded := adminUser + ":" + adminPass + ":" + extra;
    assert decoded == adminUser + [':'] + (adminPass + [':'] + extra);
    SplitAtFirst(adminUser, adminPass + [':'] + extra, ':');
    SplitAtFirst(adminPass, extra, ':');
    CredentialsMatchExactly(decoded, adminUser, adminPass);
    assert |decoded| > |adminUser + ":" + adminPass|;
  }

  /** With the defaults, `admin:changeme:x` gets past the test as written
      and not past the corrected one. */
  lemma DefaultsTrailingFieldExample()
    ensures CredentialsMatchAsWritten("admin:changeme:x", "admin", "changeme")
    ensures !CredentialsMatch("admin:changeme:x", "admin", "changeme")
  {
    assert "admin" + ":" + "changeme" + ":" + "x" == "admin:changeme:x";
    assert ':' !in "admin" && ':' !in "changeme";
    TrailingFieldAdmittedAsWritten("admin", "changeme", "x");
  }

  datatype AdminGate = Admitted | Challenge(message: string)

  /** `basicAuth`: without a `Basic ` header the response is a 401 asking
      for credentials; otherwise the decoded credentials are compared with
      ADMIN_USER and ADMIN_PASS, which default to `admin` and `changeme`.
      Base64 decoding is the given `decode`. */
  function BasicAuth(header: Option<string>, decode: string -> string,
                     envUser: Option<string>, envPass: Option<string>): (g: AdminGate)
    ensures !(header.Some? && StartsWith(header.value, "Basic ")) ==> g == Challenge("Authentication required")
    ensures header.Some? && StartsWith(header.value, "Basic ") ==>
      (g == Admitted <==> CredentialsMatch(decode(header.value[6..]), EnvOr(envUser, "admin"), EnvOr(envPass, "changeme")))
    ensures g != Admitted ==> g.Challenge?
    ensures g.Challenge? ==> g.message in {"Authentication required", "Invalid credentials"}
  {
    if header.None? || header.value == "" || !StartsWith(header.value, "Basic ") then
      Challenge("Authentication required")
    else if CredentialsMatch(decode(header.value[6..]), EnvOr(envUser, "admin"), EnvOr(envPass, "changeme")) then
      Admitted
    else
      Challenge("Invalid credentials")
  }

  /** With the defaults, `admin:changeme` gets in. */
  lemma DefaultAdminAdmitted(header: string, decode: string -> string)
    requires StartsWith(header, "Basic ") && decode(header[6..]) == "admin:changeme"
    ensures BasicAuth(Some(header), decode, None, None) == Admitted
  {
    assert "admin:changeme" == "admin" + ":" + "changeme";
    assert ':' !in "admin";
    CredentialsMatchExactly("admin:changeme", "admin", "changeme");
  }
}
