/**
 * `POST /api/login`: validate the credentials, look the user up by e-mail,
 * check the password against the stored bcrypt hash, and hand back the
 * token stored at registration in the cookie. The table is only read.
 */
module Login {
  import opened Base
  import opened Entities
  import opened External
  import opened Http
  import opened Schema
  import opened UserTable

  /** The one answer for an unknown e-mail and for a wrong password alike. */
  const InvalidCredentials: Response := Reply(401, Message("Invalid email or password"))

  /** `token=<token>; Path=/; HttpOnly; SameSite=Strict`: no Max-Age, so a session cookie. */
  function LoginCookie(token: string): SetCookie {
    SetCookie(TokenCookie, token, "/", true, Strict, None)
  }

  /** The credential decision: the user with this e-mail, if the password matches its hash. */
  function Authenticate(libs: Libs, users: seq<User>, email: string, password: string): (r: Option<User>)
    ensures r.Some? ==> r.value in users && r.value.email == email && libs.compare(password, r.value.password)
    ensures EmailsUnique(users) ==>
              (r.None? <==> forall i :: 0 <= i < |users| && users[i].email == email ==>
                                          !libs.compare(password, users[i].password))
  {
    match FindByEmail(users, email)
    case None => None
    case Some(u) => if libs.compare(password, u.password) then Some(u) else None
  }

  /** With e-mails unique, a stored user's own password authenticates it. */
  lemma AuthenticateOwnPassword(libs: Libs, users: seq<User>, k: nat, password: string)
    requires EmailsUnique(users) && k < |users|
    requires libs.compare(password, users[k].password)
    ensures Authenticate(libs, users, users[k].email, password) == Some(users[k])
  {
    FindByEmailUnique(users, k);
  }

  /** The handler, on the rows of the `user` table. */
  function Handle(libs: Libs, users: seq<User>, httpMethod: string, body: LoginBody): (r: Response)
    ensures httpMethod != "POST" ==> r == MethodNotAllowed
    ensures httpMethod == "POST" && !LoginValid(libs.isEmail, body) ==>
              r == Reply(400, ValidationFailed("Validation failed", LoginErrors(libs.isEmail, body)))
    ensures r.status == 200 <==>
              httpMethod == "POST" && LoginValid(libs.isEmail, body)
              && Authenticate(libs, users, body.email.value, body.password.value).Some?
    ensures httpMethod == "POST" && LoginValid(libs.isEmail, body)
            && Authenticate(libs, users, body.email.value, body.password.value).None? ==>
              r == InvalidCredentials
    ensures r.status == 200 ==>
              var u := Authenticate(libs, users, body.email.value, body.password.value).value;
              r == Response(200, UserMessage("Login successful", Public(u)), Some(LoginCookie(u.token)))
    ensures r.status != 200 ==> r.setCookie.None?
  {
    if httpMethod != "POST" then MethodNotAllowed
    else
      var errors := LoginErrors(libs.isEmail, body);
      if errors != [] then Reply(400, ValidationFailed("Validation failed", errors))
      else
        var email, password := body.email.value, body.password.value;
        match FindByEmail(users, email)
        case None => InvalidCredentials
        case Some(user) =>
          if !libs.compare(password, user.password) then InvalidCredentials
          else Response(200, UserMessage("Login successful", Public(user)), Some(LoginCookie(user.token)))
  }

  /**
   * An unknown e-mail and a known e-mail with a wrong password get the same
   * response, so a client cannot tell which accounts exist.
   */
  lemma UnknownEmailLooksLikeWrongPassword(libs: Libs, unknown: seq<User>, known: seq<User>, body: LoginBody)
    requires LoginValid(libs.isEmail, body)
    requires forall i :: 0 <= i < |unknown| ==> unknown[i].email != body.email.value
    requires EmailsUnique(known)
    requires exists k :: 0 <= k < |known| && known[k].email == body.email.value
                         && !libs.compare(body.password.value, known[k].password)
    ensures Handle(libs, unknown, "POST", body) == Handle(libs, known, "POST", body) == InvalidCredentials
  {
    var k :| 0 <= k < |known| && known[k].email == body.email.value
             && !libs.compare(body.password.value, known[k].password);
    FindByEmailUnique(known, k);
  }
}
