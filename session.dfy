/**
 * How the handlers work together on one table and one browser: the token
 * cookie register sets is the token login hands back and the token the
 * user handler resolves; logout only drops the cookie.
 */
module Session {
  import opened Base
  import opened Entities
  import opened External
  import opened Http
  import opened Schema
  import opened UserTable
  import Register
  import Login
  import CurrentUser
  import Logout

  /** A second registration with an e-mail already registered is refused and changes nothing. */
  lemma DuplicateRegistrationRefused(libs: Libs, db: Db, first: RegisterBody, now: nat,
                                     second: RegisterBody, later: nat)
    requires Valid(db)
    requires Register.Handle(libs, db, "POST", first, now).response.status == 201
    requires RegisterValid(libs.isEmail, second) && second.email == first.email
    ensures var db1 := Register.Handle(libs, db, "POST", first, now).db;
            Register.Handle(libs, db1, "POST", second, later)
              == Register.Outcome(Reply(400, Message("Email already registered")), db1)
  {
    var db1 := Register.Handle(libs, db, "POST", first, now).db;
    FindByEmailUnique(db1.users, |db.users|);
  }

  /**
   * Registering and then logging in with the same e-mail and password
   * succeeds, returns the new user, and sets the token register set.
   */
  lemma RegisterThenLogin(libs: Libs, db: Db, body: RegisterBody, now: nat)
    requires libs.Sound() && Valid(db)
    requires Register.Handle(libs, db, "POST", body, now).response.status == 201
    ensures var o := Register.Handle(libs, db, "POST", body, now);
            var u := o.db.users[|db.users|];
            var r := Login.Handle(libs, o.db.users, "POST", LoginBody(body.email, body.password));
            && r == Response(200, UserMessage("Login successful", Public(u)), Some(Login.LoginCookie(u.token)))
            && r.setCookie.value.value == o.response.setCookie.value.value
  {
    var o := Register.Handle(libs, db, "POST", body, now);
    var u := o.db.users[|db.users|];
    RegisterValidIsLoginValid(libs.isEmail, body);
    assert libs.compare(body.password.value, libs.hash(body.password.value));
    Login.AuthenticateOwnPassword(libs, o.db.users, |db.users|, body.password.value);
  }

  /**
   * The cookie register sets resolves to the new user, provided no existing
   * user already holds the same token (tokens are hashes and may collide).
   */
  lemma RegisterThenCurrentUser(libs: Libs, db: Db, body: RegisterBody, now: nat, jar: Option<string>)
    requires libs.Sound() && Valid(db)
    requires Register.Handle(libs, db, "POST", body, now).response.status == 201
    requires forall i :: 0 <= i < |db.users| ==>
               db.users[i].token != Register.SessionToken(libs, now, body.email.value, body.name.value)
    ensures var o := Register.Handle(libs, db, "POST", body, now);
            CurrentUser.Handle("GET", StoreCookie(jar, o.response.setCookie), o.db.users)
              == Reply(200, Profile(Public(o.db.users[|db.users|])))
  {
    var o := Register.Handle(libs, db, "POST", body, now);
    var u := o.db.users[|db.users|];
    assert o.db.users == db.users + [u];
    assert |u.token| == 64;
    FindByTokenAppend(db.users, u, u.token);
  }

  /**
   * The cookie login sets resolves to the user who logged in, provided no
   * other user holds the same token.
   */
  lemma LoginThenCurrentUser(libs: Libs, users: seq<User>, body: LoginBody, jar: Option<string>)
    requires Login.Handle(libs, users, "POST", body).status == 200
    requires var u := Login.Authenticate(libs, users, body.email.value, body.password.value).value;
             u.token != "" && forall i :: 0 <= i < |users| && users[i].token == u.token ==> users[i] == u
    ensures var u := Login.Authenticate(libs, users, body.email.value, body.password.value).value;
            CurrentUser.Handle("GET", StoreCookie(jar, Login.Handle(libs, users, "POST", body).setCookie), users)
              == Reply(200, Profile(Public(u)))
  {
  }

  /** After logout the browser sends no token, so the user handler answers 401 Unauthorized. */
  lemma LogoutThenCurrentUser(jar: Option<string>, users: seq<User>)
    ensures CurrentUser.Handle("GET", StoreCookie(jar, Logout.Handle("POST").setCookie), users)
              == CurrentUser.Unauthorized
  {
  }
}
