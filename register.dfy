/**
 * `POST /api/register`: validate the body, refuse an e-mail that is already
 * registered, store the new user with a hashed password and a fresh session
 * token, and set the token cookie.
 */
module Register {
  import opened Base
  import opened Text
  import opened Entities
  import opened External
  import opened Http
  import opened Schema
  import opened UserTable

  /** A handler's response together with the table it leaves behind. */
  datatype Outcome = Outcome(response: Response, db: Db)

  /** The session cookie's lifetime: thirty days, in seconds. */
  const SessionMaxAge: int := 2592000

  /** `sha256(Date.now().toString() + email + name)`, as hex. */
  function SessionToken(libs: Libs, now: nat, email: string, name: string): string {
    libs.sha256(DecimalString(now) + email + name)
  }

  /** `token=<token>; Path=/; HttpOnly; SameSite=Lax; Max-Age=2592000` */
  function SessionCookie(token: string): SetCookie {
    SetCookie(TokenCookie, token, "/", true, Lax, Some(SessionMaxAge))
  }

  /**
   * One step of the `errors.reduce`: the message split at `" at "`; the
   * part before the first separator is the key, the part up to the next one
   * the value, and the whole message stands in when that part is missing
   * or empty (`message || curr`).
   */
  function ErrorEntry(curr: string): (e: (string, string))
    ensures !Contains(curr, At) ==> e == (curr, curr)
  {
    var parts := Split(curr, At);
    var message := if |parts| > 1 then parts[1] else "";
    (parts[0], if message == "" then curr else message)
  }

  /**
   * Where the message contains `" at "`: the key is what precedes its first
   * occurrence, and the value is the text up to the next occurrence (all of
   * the rest when there is none), or the whole message when that is empty.
   */
  lemma ErrorEntryAtSeparator(curr: string, i: nat)
    requires IndexOf(curr, At, 0) == Some(i)
    ensures ErrorEntry(curr).0 == curr[..i]
    ensures var rest := curr[i + |At|..];
            var piece := match IndexOf(rest, At, 0) case None => rest case Some(j) => rest[..j];
            ErrorEntry(curr).1 == if piece == "" then curr else piece
  {
    var rest := curr[i + |At|..];
    assert Split(curr, At) == [curr[..i]] + Split(rest, At);
    match IndexOf(rest, At, 0)
    case None =>
      assert Split(rest, At) == [rest];
    case Some(j) =>
      assert Split(rest, At)[0] == rest[..j];
  }

  /**
   * The accumulator of `errors.reduce(..., {})` after all of `messages`:
   * at most one key per message, and the last message's entry always stands.
   */
  function ErrorMap(messages: seq<string>): (m: map<string, string>)
    ensures |m.Keys| <= |messages|
    ensures messages != [] ==>
              var e := ErrorEntry(messages[|messages| - 1]);
              e.0 in m && m[e.0] == e.1
  {
    if messages == [] then map[]
    else
      var e := ErrorEntry(messages[|messages| - 1]);
      ErrorMap(messages[..|messages| - 1])[e.0 := e.1]
  }

  /** The `reduce` that builds the validation response's `errors` object. */
  method BuildErrorMap(messages: seq<string>) returns (acc: map<string, string>)
    ensures acc == ErrorMap(messages)
  {
    acc := map[];
    for i := 0 to |messages|
      invariant acc == ErrorMap(messages[..i])
    {
      var (field, message) := ErrorEntry(messages[i]);
      acc := acc[field := message];
      assert messages[..i + 1][..i] == messages[..i];
    }
    assert messages[..|messages|] == messages;
  }

  /** The keys of the error map are exactly the keys the messages split into. */
  lemma {:induction false} ErrorMapKeys(messages: seq<string>, k: string)
    ensures k in ErrorMap(messages) <==> exists i :: 0 <= i < |messages| && ErrorEntry(messages[i]).0 == k
  {
    if messages != [] {
      var init := messages[..|messages| - 1];
      ErrorMapKeys(init, k);
      if k in ErrorMap(init) {
        var i :| 0 <= i < |init| && ErrorEntry(init[i]).0 == k;
        assert messages[i] == init[i];
      }
      if exists i :: 0 <= i < |messages| && ErrorEntry(messages[i]).0 == k {
        var i :| 0 <= i < |messages| && ErrorEntry(messages[i]).0 == k;
        if i < |init| { assert init[i] == messages[i]; }
      }
    }
  }

  /** A key keeps the value of the last message that splits to it: later messages overwrite earlier ones. */
  lemma {:induction false} ErrorMapLastWins(messages: seq<string>, i: nat)
    requires i < |messages|
    requires forall j :: i < j < |messages| ==> ErrorEntry(messages[j]).0 != ErrorEntry(messages[i]).0
    ensures ErrorEntry(messages[i]).0 in ErrorMap(messages)
    ensures ErrorMap(messages)[ErrorEntry(messages[i]).0] == ErrorEntry(messages[i]).1
  {
    var init := messages[..|messages| - 1];
    if i < |init| {
      assert init[i] == messages[i];
      forall j | i < j < |init| ensures ErrorEntry(init[j]).0 != ErrorEntry(init[i]).0 {
        assert init[j] == messages[j];
      }
      ErrorMapLastWins(init, i);
    }
  }

  /** A message without `" at "` is reported under itself. */
  lemma ErrorMapPlainMessage(messages: seq<string>, i: nat)
    requires i < |messages| && !Contains(messages[i], At)
    requires forall j :: i < j < |messages| ==> ErrorEntry(messages[j]).0 != messages[i]
    ensures messages[i] in ErrorMap(messages) && ErrorMap(messages)[messages[i]] == messages[i]
  {
    ErrorMapLastWins(messages, i);
  }

  /**
   * The two password-pattern messages both contain `" at "`, so both split
   * to the key "Password must contain"; the digit rule is checked last and
   * its remainder overwrites the upper-case rule's.
   */
  lemma PasswordRuleMessagesCollide()
    ensures ErrorEntry(PasswordNoUpper) == ("Password must contain", "least one uppercase letter")
    ensures ErrorEntry(PasswordNoDigit) == ("Password must contain", "least one number")
  {
    UpperRuleEntry();
    DigitRuleEntry();
  }

  lemma UpperRuleEntry()
    ensures ErrorEntry(PasswordNoUpper) == ("Password must contain", "least one uppercase letter")
  {
    var tail := "least one uppercase letter";
    assert PasswordNoUpper == "Password must contain" + At + tail;
    SeparatorFree(tail);
    SplitsAtColumn21(PasswordNoUpper, tail);
  }

  lemma DigitRuleEntry()
    ensures ErrorEntry(PasswordNoDigit) == ("Password must contain", "least one number")
  {
    var tail := "least one number";
    assert PasswordNoDigit == "Password must contain" + At + tail;
    SeparatorFree(tail);
    SplitsAtColumn21(PasswordNoDigit, tail);
  }

  /** Neither message tail holds a space followed by `a`, so neither holds `" at "`. */
  lemma SeparatorFree(tail: string)
    requires tail == "least one uppercase letter" || tail == "least one number"
    ensures forall j: nat :: j < |tail| ==> !OccursAt(tail, At, j)
  {
    forall j: nat | j < |tail| ensures !OccursAt(tail, At, j) {
      NotOccursAt(tail, At, j);
    }
  }

  lemma SplitsAtColumn21(m: string, tail: string)
    requires m == "Password must contain" + At + tail && tail != ""
    requires forall j: nat :: j < |tail| ==> !OccursAt(tail, At, j)
    ensures ErrorEntry(m) == ("Password must contain", tail)
  {
    forall j: nat | j < 21 ensures !OccursAt(m, At, j) {
      NotOccursAt(m, At, j);
    }
    SplitAtFirst(m, At, 21);
    assert m[21 + |At|..] == tail;
    assert m[..21] == "Password must contain";
    SplitWithout(tail, At);
    assert Split(m, At) == [m[..21], tail];
  }

  /**
   * So a registration whose password has neither an upper-case letter nor
   * a digit reports only the digit rule: the upper-case message is lost.
   */
  lemma WeakPasswordReportsDigitRuleOnly(isEmail: string -> bool, b: RegisterBody)
    requires b.password.Some?
    requires !HasUpper(b.password.value) && !HasDigit(b.password.value)
    ensures "Password must contain" in ErrorMap(RegisterErrors(isEmail, b))
    ensures ErrorMap(RegisterErrors(isEmail, b))["Password must contain"] == "least one number"
  {
    var errors := RegisterErrors(isEmail, b);
    PasswordRuleMessagesCollide();
    assert errors[|errors| - 1] == PasswordNoDigit;
  }

  /** What a successful registration leaves behind: one new row, and its token in the cookie. */
  ghost predicate Registered(libs: Libs, db: Db, body: RegisterBody, now: nat, o: Outcome)
    requires RegisterValid(libs.isEmail, body)
  {
    && |o.db.users| == |db.users| + 1
    && o.db.users[..|db.users|] == db.users
    && var u := o.db.users[|db.users|];
       && u.id !in (set v | v in db.users :: v.id)
       && u.name == body.name.value && u.email == body.email.value
       && u.password == libs.hash(body.password.value)
       && u.token == SessionToken(libs, now, u.email, u.name)
       && o.response.setCookie == Some(SessionCookie(u.token))
       && o.response.body == UserMessage("Registration successful", Public(u))
  }

  /** The handler, on the table `db` at time `now` (milliseconds since the epoch). */
  function Handle(libs: Libs, db: Db, httpMethod: string, body: RegisterBody, now: nat): (o: Outcome)
    requires Valid(db)
    ensures Valid(o.db)
    ensures httpMethod != "POST" ==> o == Outcome(MethodNotAllowed, db)
    ensures o.response.status == 201 <==>
              httpMethod == "POST" && RegisterValid(libs.isEmail, body)
              && FindByEmail(db.users, body.email.value).None?
    ensures o.response.status != 201 ==> o.db == db && o.response.setCookie.None?
    ensures httpMethod == "POST" && !RegisterValid(libs.isEmail, body) ==>
              o.response == Reply(400, FieldErrors(ErrorMap(RegisterErrors(libs.isEmail, body))))
    ensures httpMethod == "POST" && RegisterValid(libs.isEmail, body)
            && FindByEmail(db.users, body.email.value).Some? ==>
              o.response == Reply(400, Message("Email already registered"))
    ensures o.response.status == 201 ==> Registered(libs, db, body, now, o)
  {
    if httpMethod != "POST" then Outcome(MethodNotAllowed, db)
    else
      var errors := RegisterErrors(libs.isEmail, body);
      if errors != [] then Outcome(Reply(400, FieldErrors(ErrorMap(errors))), db)
      else
        var name, email, password := body.name.value, body.email.value, body.password.value;
        if FindByEmail(db.users, email).Some? then
          Outcome(Reply(400, Message("Email already registered")), db)
        else
          var token := SessionToken(libs, now, email, name);
          var db' := Create(db, name, email, libs.hash(password), token);
          var user := db'.users[|db.users|];
          assert db'.users[..|db.users|] == db.users;
          Outcome(Response(201, UserMessage("Registration successful", Public(user)),
                           Some(SessionCookie(token))), db')
  }
}
