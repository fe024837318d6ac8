/** app/api/auth/login/route.ts: credential check. `verify` stands for the
    store's `verifyUser`: an account, none, or an exception. */
module LoginRoute {
  import opened Common
  import opened Records
  import opened FileStore
  import opened Http

  /** The members of a login request. */
  datatype LoginBody = LoginBody(username: Option<string>, password: Option<string>)

  /** `const { password: _, ...rest } = user`: the account without its password. */
  function WithoutPassword(u: User): (p: PublicUser)
    ensures p.id == u.id && p.username == u.username && p.role == u.role && p.createdAt == u.createdAt
  {
    PublicUser(u.id, u.username, u.role, u.createdAt)
  }

  /** Nothing of the password reaches the client: accounts that differ only in
      their password are sent identically. */
  lemma PasswordNotSent(u: User, other: string)
    ensures WithoutPassword(u) == WithoutPassword(u.(password := other))
  {
  }

  /** POST /api/auth/login. A body that is not JSON, or a failing check, gives
      500; a missing username or password gives 400 before the store is asked;
      no matching account gives 401; a match gives 200 with the account minus
      its password. */
  function Login(body: Option<LoginBody>, verify: (string, string) -> Outcome<Option<User>>): (r: Response)
    ensures body.Some? && !(Truthy(body.value.username) && Truthy(body.value.password))
        ==> r == Failure(400, "Username and password are required")
    ensures body.None? ==> r == Failure(500, "Login failed")
    ensures body.Some? && Truthy(body.value.username) && Truthy(body.value.password) ==>
      var v := verify(body.value.username.value, body.value.password.value);
      && (v.Thrown? ==> r == Failure(500, "Login failed"))
      && (v == Ok(None) ==> r == Failure(401, "Invalid credentials"))
      && (v.Ok? && v.value.Some? ==> r.status == 200 && r.body.success
                                     && r.body.data == Account(WithoutPassword(v.value.value)))
  {
    if body.None? then Failure(500, "Login failed")
    else if !Truthy(body.value.username) || !Truthy(body.value.password) then
      Failure(400, "Username and password are required")
    else match verify(body.value.username.value, body.value.password.value)
      case Thrown(_) => Failure(500, "Login failed")
      case Ok(None) => Failure(401, "Invalid credentials")
      case Ok(Some(user)) => Response(200, Envelope(true, Account(WithoutPassword(user)), None, None, None, None))
  }

  /** The rejection of an incomplete request does not depend on the store. */
  lemma RejectsWithoutVerifying(b: LoginBody, v1: (string, string) -> Outcome<Option<User>>,
                                v2: (string, string) -> Outcome<Option<User>>)
    requires !(Truthy(b.username) && Truthy(b.password))
    ensures Login(Some(b), v1) == Login(Some(b), v2)
  {
  }

  /** Against the file store, a request is answered 200 exactly when some
      account matches both username and password, and then with the first
      such account; otherwise 401. */
  lemma FileLogin(users: seq<User>, username: string, password: string)
    requires username != "" && password != ""
    ensures var r := Login(Some(LoginBody(Some(username), Some(password))),
                           (n: string, p: string) => Ok(FindUser(users, n, p)));
      && (r.status == 200 <==> exists i :: 0 <= i < |users| && Matches(users[i], username, password))
      && (r.status != 200 ==> r == Failure(401, "Invalid credentials"))
      && (r.status == 200 ==> r.body.data == Account(WithoutPassword(users[IndexOfUser(users, username, password)])))
  {
  }

  /** A store seeded with the default administrator admits 'admin' with
      'admin123' and sends back that account without its password. */
  lemma SeededAdminLogin(now: string)
    ensures Login(Some(LoginBody(Some("admin"), Some("admin123"))),
                  (n: string, p: string) => Ok(FindUser([DefaultAdmin(now)], n, p)))
         == Response(200, Envelope(true, Account(PublicUser("1", "admin", "admin", now)), None, None, None, None))
  {
    SeededAdminLogsIn(now);
  }
}
