/**
 * The libraries the handlers call but this model does not implement:
 * bcryptjs `hash` and `compare`, Node's SHA-256 hex digest, and yup's
 * e-mail format check. Each is a function value supplied from outside.
 */
module External {

  datatype Libs = Libs(
    hash: string -> string,               // bcrypt hash(password, 10)
    compare: (string, string) -> bool,    // bcrypt compare(password, hash)
    sha256: string -> string,             // createHash('sha256').update(data).digest('hex')
    isEmail: string -> bool)              // yup string().email()
  {
    /**
     * What the handlers rely on: `compare` accepts every password against
     * its own hash, and a hex SHA-256 digest has 64 characters.
     */
    ghost predicate Sound() {
      && (forall pw :: compare(pw, hash(pw)))
      && (forall data :: |sha256(data)| == 64)
    }
  }
}
