/**
 * The running application: the `user` table behind the API and the
 * browser's `token` cookie, updated in place as requests are handled one
 * at a time.
 */
module App {
  import opened Base
  import opened Entities
  import opened External
  import opened Http
  import opened Schema
  import opened UserTable
  import RegisterHandler = Register
  import LoginHandler = Login
  import UserHandler = CurrentUser
  import LogoutHandler = Logout

  class Site {
    /** bcrypt, SHA-256 and yup's e-mail check. */
    const libs: Libs
    /** The rows of the `user` table, in insertion order. */
    var users: seq<User>
    /** The id the table hands to the next row it creates. */
    var nextId: nat
    /** The browser's `token` cookie. */
    var cookie: Option<string>

    ghost predicate Valid()
      reads this
    {
      UserTable.Valid(Db(users, nextId))
    }

    constructor (libs: Libs)
      ensures Valid()
      ensures this.libs == libs && users == [] && nextId == 0 && cookie == None
    {
      this.libs := libs;
      users, nextId, cookie := [], 0, None;
    }

    /** `POST /api/register` */
    method Register(httpMethod: string, body: RegisterBody, now: nat) returns (resp: Response)
      requires Valid()
      modifies this
      ensures Valid()
      ensures RegisterHandler.Outcome(resp, Db(users, nextId))
                == RegisterHandler.Handle(libs, old(Db(users, nextId)), httpMethod, body, now)
      ensures cookie == StoreCookie(old(cookie), resp.setCookie)
    {
      if httpMethod != "POST" {
        return MethodNotAllowed;
      }
      var errors := RegisterErrors(libs.isEmail, body);
      if errors != [] {
        var fields := RegisterHandler.BuildErrorMap(errors);
        return Reply(400, FieldErrors(fields));
      }
      var name, email, password := body.name.value, body.email.value, body.password.value;
      var existing := FindByEmail(users, email);
      if existing.Some? {
        return Reply(400, Message("Email already registered"));
      }
      var token := RegisterHandler.SessionToken(libs, now, email, name);
      var hashed := libs.hash(password);
      var user := User(nextId, name, email, hashed, token);
      users, nextId := users + [user], nextId + 1;
      var header := RegisterHandler.SessionCookie(token);
      cookie := StoreCookie(cookie, Some(header));
      resp := Response(201, UserMessage("Registration successful", Public(user)), Some(header));
    }

    /** `POST /api/login`: only the cookie can change. */
    method Login(httpMethod: string, body: LoginBody) returns (resp: Response)
      modifies this`cookie
      ensures resp == LoginHandler.Handle(libs, users, httpMethod, body)
      ensures cookie == StoreCookie(old(cookie), resp.setCookie)
    {
      if httpMethod != "POST" {
        return MethodNotAllowed;
      }
      var errors := LoginErrors(libs.isEmail, body);
      if errors != [] {
        return Reply(400, ValidationFailed("Validation failed", errors));
      }
      var user := LoginHandler.Authenticate(libs, users, body.email.value, body.password.value);
      if user.None? {
        return LoginHandler.InvalidCredentials;
      }
      var header := LoginHandler.LoginCookie(user.value.token);
      cookie := StoreCookie(cookie, Some(header));
      resp := Response(200, UserMessage("Login successful", Public(user.value)), Some(header));
    }

    /** `GET /api/user` with the browser's cookie; reads the state only. */
    function Me(httpMethod: string): (r: Response)
      reads this
      ensures r.setCookie.None?
      ensures httpMethod != "GET" ==> r == MethodNotAllowed
      ensures httpMethod == "GET" && (cookie.None? || cookie.value == "") ==> r == UserHandler.Unauthorized
      ensures httpMethod == "GET" && cookie.Some? && cookie.value != ""
              && (forall i :: 0 <= i < |users| ==> users[i].token != cookie.value) ==>
                r == UserHandler.UserNotFound
      ensures r.status == 200 <==>
                httpMethod == "GET" && cookie.Some? && cookie.value != ""
                && exists i :: 0 <= i < |users| && users[i].token == cookie.value
      ensures r.status == 200 ==>
                exists i :: 0 <= i < |users| && users[i].token == cookie.value
                            && r.body == Profile(Public(users[i]))
    {
      UserHandler.Handle(httpMethod, cookie, users)
    }

    /** `POST /api/logout`: only the cookie can change, and a POST drops it. */
    method Logout(httpMethod: string) returns (resp: Response)
      modifies this`cookie
      ensures resp == LogoutHandler.Handle(httpMethod)
      ensures cookie == if httpMethod == "POST" then None else old(cookie)
    {
      if httpMethod != "POST" {
        return MethodNotAllowed;
      }
      resp := Response(200, Message("Logged out successfully"), Some(LogoutHandler.ClearCookie));
      cookie := StoreCookie(cookie, resp.setCookie);
    }
  }
}
