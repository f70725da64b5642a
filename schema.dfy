/**
 * The yup schemas the handlers validate their input against, validated with
 * `abortEarly: false`: every failing rule contributes its message, fields in
 * declaration order, rules of a field in the order they are declared. A field
 * that is absent fails only its `required` rule (yup runs no further test on
 * an absent value); a present empty string fails `required` and every other
 * rule that rejects it (`min`, `matches`), but not `email()`, which skips
 * empty strings.
 */
module Schema {
  import opened Base
  import opened Text

  /** The registration request body; `None` is an absent field. */
  datatype RegisterBody = RegisterBody(name: Option<string>, email: Option<string>, password: Option<string>)

  /** The login request body. */
  datatype LoginBody = LoginBody(email: Option<string>, password: Option<string>)

  /** The feed's query string, already read as integers. */
  datatype CakesQuery = CakesQuery(page: Option<int>, limit: Option<int>)

  const NameRequired := "Name is required"
  const NameTooShort := "Name must be at least 2 characters"
  const NameTooLong := "Name must be less than 50 characters"
  const EmailRequired := "Email is required"
  const EmailInvalid := "Must be a valid email"
  const PasswordRequired := "Password is required"
  const PasswordTooShort := "Password must be at least 6 characters"
  const PasswordNoUpper := "Password must contain at least one uppercase letter"
  const PasswordNoDigit := "Password must contain at least one number"

  /** `email: string().required().email()`, shared by both schemas. */
  function EmailErrors(isEmail: string -> bool, email: Option<string>): seq<string> {
    match email
    case None => [EmailRequired]
    case Some(s) =>
      if s == "" then [EmailRequired]
      else if !isEmail(s) then [EmailInvalid]
      else []
  }

  /**
   * `name: string().required().min(2).max(50)`; yup's `min` and `max`
   * compare the string's JavaScript `.length`, in UTF-16 code units.
   */
  function NameErrors(name: Option<string>): seq<string> {
    match name
    case None => [NameRequired]
    case Some(s) =>
      (if s == "" then [NameRequired] else [])
      + (if Utf16Length(s) < 2 then [NameTooShort] else [])
      + (if Utf16Length(s) > 50 then [NameTooLong] else [])
  }

  /** `password: string().required().min(6).matches(/[A-Z]/).matches(/[0-9]/)` */
  function StrongPasswordErrors(password: Option<string>): seq<string> {
    match password
    case None => [PasswordRequired]
    case Some(s) =>
      (if s == "" then [PasswordRequired] else [])
      + (if Utf16Length(s) < 6 then [PasswordTooShort] else [])
      + (if !HasUpper(s) then [PasswordNoUpper] else [])
      + (if !HasDigit(s) then [PasswordNoDigit] else [])
  }

  /** `password: string().required().min(6)` */
  function PasswordErrors(password: Option<string>): seq<string> {
    match password
    case None => [PasswordRequired]
    case Some(s) =>
      (if s == "" then [PasswordRequired] else [])
      + (if Utf16Length(s) < 6 then [PasswordTooShort] else [])
  }

  /** What `registerSchema` accepts. */
  predicate RegisterValid(isEmail: string -> bool, b: RegisterBody) {
    && b.name.Some? && 2 <= Utf16Length(b.name.value) <= 50
    && b.email.Some? && b.email.value != "" && isEmail(b.email.value)
    && b.password.Some? && Utf16Length(b.password.value) >= 6 && HasUpper(b.password.value) && HasDigit(b.password.value)
  }

  /** What `loginSchema` accepts: no upper-case or digit rule here. */
  predicate LoginValid(isEmail: string -> bool, b: LoginBody) {
    && b.email.Some? && b.email.value != "" && isEmail(b.email.value)
    && b.password.Some? && Utf16Length(b.password.value) >= 6
  }

  /** The messages of `registerSchema.validate(body, { abortEarly: false })`. */
  function RegisterErrors(isEmail: string -> bool, b: RegisterBody): (errors: seq<string>)
    ensures errors == [] <==> RegisterValid(isEmail, b)
  {
    NameErrors(b.name) + EmailErrors(isEmail, b.email) + StrongPasswordErrors(b.password)
  }

  /** The messages of `loginSchema.validate(body, { abortEarly: false })`. */
  function LoginErrors(isEmail: string -> bool, b: LoginBody): (errors: seq<string>)
    ensures errors == [] <==> LoginValid(isEmail, b)
  {
    EmailErrors(isEmail, b.email) + PasswordErrors(b.password)
  }

  /** Every body registration accepts is, as credentials, one login accepts. */
  lemma RegisterValidIsLoginValid(isEmail: string -> bool, b: RegisterBody)
    requires RegisterValid(isEmail, b)
    ensures LoginValid(isEmail, LoginBody(b.email, b.password))
  {
  }

  /**
   * A name of one character beyond U+FFFF is two code units long, so it
   * meets `min(2)` with nothing to report.
   */
  lemma SurrogatePairNameAccepted(c: char)
    requires c as int > 0xFFFF
    ensures NameErrors(Some([c])) == []
  {
    assert [c][..0] == [];
  }

  /** `page: number().positive().default(1)` */
  function PageOf(q: CakesQuery): int { q.page.GetOr(1) }

  /** `limit: number().positive().max(100).default(10)` */
  function LimitOf(q: CakesQuery): int { q.limit.GetOr(10) }

  /** The messages of `querySchema.validate(query, { abortEarly: false })`. */
  function QueryErrors(q: CakesQuery): (errors: seq<string>)
    ensures errors == [] <==> PageOf(q) >= 1 && 1 <= LimitOf(q) <= 100
    ensures q == CakesQuery(None, None) ==> errors == []
  {
    (if PageOf(q) <= 0 then ["page must be a positive number"] else [])
    + (if LimitOf(q) <= 0 then ["limit must be a positive number"] else [])
    + (if LimitOf(q) > 100 then ["limit must be less than or equal to 100"] else [])
  }
}
