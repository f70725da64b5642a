/**
 * `GET /api/user`: resolve the `token` cookie to the user who holds that
 * token. The table is only read.
 */
module CurrentUser {
  import opened Base
  import opened Entities
  import opened Http
  import opened UserTable

  const Unauthorized: Response := Reply(401, Message("Unauthorized"))
  const UserNotFound: Response := Reply(401, Message("User not found"))

  /** The handler, given the request's `token` cookie (absent is `None`). */
  function Handle(httpMethod: string, token: Option<string>, users: seq<User>): (r: Response)
    ensures r.setCookie.None?
    ensures httpMethod != "GET" ==> r == MethodNotAllowed
    ensures httpMethod == "GET" && (token.None? || token.value == "") ==> r == Unauthorized
    ensures r.status == 200 <==>
              httpMethod == "GET" && token.Some? && token.value != ""
              && exists i :: 0 <= i < |users| && users[i].token == token.value
    ensures r.status == 200 ==>
              exists i :: 0 <= i < |users| && users[i].token == token.value
                          && r == Reply(200, Profile(Public(users[i])))
    ensures httpMethod == "GET" && token.Some? && token.value != ""
            && (forall i :: 0 <= i < |users| ==> users[i].token != token.value) ==>
              r == UserNotFound
  {
    if httpMethod != "GET" then MethodNotAllowed
    else if token.None? || token.value == "" then Unauthorized
    else
      match FindByToken(users, token.value)
      case None => UserNotFound
      case Some(user) => Reply(200, Profile(Public(user)))
  }
}
