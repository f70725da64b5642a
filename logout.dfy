/** `POST /api/logout`: expire the `token` cookie. No table access. */
module Logout {
  import opened Base
  import opened Http

  /** `token=; Path=/; HttpOnly; SameSite=Strict; Max-Age=0` */
  const ClearCookie: SetCookie := SetCookie(TokenCookie, "", "/", true, Strict, Some(0))

  function Handle(httpMethod: string): (r: Response)
    ensures httpMethod != "POST" ==> r == MethodNotAllowed
    ensures httpMethod == "POST" ==> r.status == 200 && r.body == Message("Logged out successfully")
    ensures forall jar :: StoreCookie(jar, r.setCookie) == if httpMethod == "POST" then None else jar
  {
    if httpMethod != "POST" then MethodNotAllowed
    else Response(200, Message("Logged out successfully"), Some(ClearCookie))
  }
}
