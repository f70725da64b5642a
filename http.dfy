/**
 * Responses as the handlers build them (status, JSON body, Set-Cookie
 * header) and the browser's handling of the `token` cookie.
 */
module Http {
  import opened Base
  import opened Entities

  datatype SameSite = Lax | Strict

  /** A `Set-Cookie` header: `name=value; Path=path; HttpOnly; SameSite=...; Max-Age=...`. */
  datatype SetCookie = SetCookie(name: string, value: string, path: string, httpOnly: bool,
                                 sameSite: SameSite, maxAge: Option<int>)

  /** The JSON bodies the handlers send. */
  datatype Body =
    | Message(message: string)                              // { message }
    | UserMessage(message: string, user: PublicUser)        // { message, user: { id, name, email } }
    | Profile(profile: PublicUser)                          // { id, name, email }
    | FieldErrors(fields: map<string, string>)              // { status: 'error', type: 'validation', errors }
    | ValidationFailed(message: string, failures: seq<string>) // { message, errors }
    | Errors(errors: seq<string>)                           // { errors }
    | Page(cakes: seq<CakeView>, metadata: Metadata)        // { cakes, metadata }

  datatype Response = Response(status: nat, body: Body, setCookie: Option<SetCookie>)

  /** A response that sets no cookie. */
  function Reply(status: nat, body: Body): Response {
    Response(status, body, None)
  }

  const MethodNotAllowed: Response := Reply(405, Message("Method not allowed"))

  /** The cookie that carries the session token. */
  const TokenCookie: string := "token"

  /**
   * The browser's `token` cookie after it processes a response's
   * `Set-Cookie` header (RFC 6265 section 5.3). A `Max-Age` of zero or less
   * sets the expiry to the earliest representable time (section 5.2.2), so
   * the cookie is evicted instead of stored. Headers for other cookies and
   * responses without a header leave it alone.
   */
  function StoreCookie(jar: Option<string>, header: Option<SetCookie>): (r: Option<string>)
    ensures header.None? || header.value.name != TokenCookie ==> r == jar
    ensures header.Some? && header.value.name == TokenCookie ==>
              (r.Some? <==> header.value.maxAge.None? || header.value.maxAge.value > 0)
    ensures header.Some? && header.value.name == TokenCookie && r.Some? ==> r.value == header.value.value
  {
    match header
    case None => jar
    case Some(h) =>
      if h.name != TokenCookie then jar
      else if h.maxAge.Some? && h.maxAge.value <= 0 then None
      else Some(h.value)
  }

  /** Processing the same header twice leaves the cookie as processing it once. */
  lemma StoreCookieIdempotent(jar: Option<string>, header: Option<SetCookie>)
    ensures StoreCookie(StoreCookie(jar, header), header) == StoreCookie(jar, header)
  {
  }
}
