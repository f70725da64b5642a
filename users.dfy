/**
 * The `user` table as the handlers see it through Prisma: `findUnique` by
 * e-mail, `findFirst` by token, and `create`. Rows are kept in insertion
 * order and `create` hands out increasing ids.
 */
module UserTable {
  import opened Base
  import opened Entities

  datatype Db = Db(users: seq<User>, nextId: nat)

  /** The unique constraint on `email`. */
  ghost predicate EmailsUnique(users: seq<User>) {
    forall i, j :: 0 <= i < j < |users| ==> users[i].email != users[j].email
  }

  /** Ids increase in insertion order and stay below the next id to hand out. */
  ghost predicate IdsFresh(users: seq<User>, nextId: nat) {
    && (forall i, j :: 0 <= i < j < |users| ==> users[i].id < users[j].id)
    && (forall i :: 0 <= i < |users| ==> users[i].id < nextId)
  }

  ghost predicate Valid(db: Db) {
    EmailsUnique(db.users) && IdsFresh(db.users, db.nextId)
  }

  /** The earliest row that satisfies `p`, if any. */
  function FindFirst(users: seq<User>, p: User -> bool): (r: Option<User>)
    ensures r.Some? ==> exists k :: 0 <= k < |users| && users[k] == r.value && p(users[k])
                                    && forall j :: 0 <= j < k ==> !p(users[j])
    ensures r.None? ==> forall i :: 0 <= i < |users| ==> !p(users[i])
  {
    if users == [] then None
    else if p(users[0]) then Some(users[0])
    else
      var r := FindFirst(users[1..], p);
      assert r.Some? ==> exists k :: 1 <= k < |users| && users[k] == r.value && p(users[k])
                                    && forall j :: 0 <= j < k ==> !p(users[j]) by {
        if r.Some? {
          var k :| 0 <= k < |users| - 1 && users[1..][k] == r.value && p(users[1..][k])
                   && forall j :: 0 <= j < k ==> !p(users[1..][j]);
          assert forall j :: 1 <= j < k + 1 ==> users[j] == users[1..][j - 1];
        }
      }
      r
  }

  /** `prisma.user.findUnique({ where: { email } })` */
  function FindByEmail(users: seq<User>, email: string): Option<User> {
    FindFirst(users, (u: User) => u.email == email)
  }

  /** With e-mails unique, the lookup returns the one row that has the e-mail. */
  lemma FindByEmailUnique(users: seq<User>, k: nat)
    requires EmailsUnique(users) && k < |users|
    ensures FindByEmail(users, users[k].email) == Some(users[k])
  {
  }

  /** `prisma.user.findFirst({ where: { token } })`, taking rows in insertion order. */
  function FindByToken(users: seq<User>, token: string): Option<User> {
    FindFirst(users, (u: User) => u.token == token)
  }

  /** Appending a row does not change which earlier row a token finds. */
  lemma {:induction false} FindByTokenAppend(users: seq<User>, u: User, token: string)
    ensures FindByToken(users + [u], token) ==
              if FindByToken(users, token).Some? then FindByToken(users, token)
              else if u.token == token then Some(u) else None
  {
    if users != [] {
      assert (users + [u])[1..] == users[1..] + [u];
      FindByTokenAppend(users[1..], u, token);
    } else {
      assert (users + [u])[1..] == [];
    }
  }

  /** `prisma.user.create({ data })`: a new row with the next id. */
  function Create(db: Db, name: string, email: string, password: string, token: string): (r: Db)
    requires Valid(db) && FindByEmail(db.users, email).None?
    ensures Valid(r)
    ensures r.nextId > db.nextId
    ensures r.users == db.users + [User(db.nextId, name, email, password, token)]
  {
    Db(db.users + [User(db.nextId, name, email, password, token)], db.nextId + 1)
  }
}
