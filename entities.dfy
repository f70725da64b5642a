/** The records the API stores and the shapes it returns. */
module Entities {

  /**
   * A row of the `user` table: `password` holds the bcrypt hash of the
   * password and `token` the session token issued at registration.
   */
  datatype User = User(id: nat, name: string, email: string, password: string, token: string)

  /** The `{ id, name, email }` projection the user-facing handlers return. */
  datatype PublicUser = PublicUser(id: nat, name: string, email: string)

  function Public(u: User): PublicUser {
    PublicUser(u.id, u.name, u.email)
  }

  /** A row of the `cake` table together with the user it belongs to. */
  datatype CakeRow = CakeRow(id: nat, name: string, imageUrl: string, createdAt: int, userId: nat, owner: User)

  /** The `{ id, name }` projection of a cake's owner embedded in the feed. */
  datatype Owner = Owner(id: nat, name: string)

  /** A cake as the feed returns it: its own columns and its owner's `id` and `name`. */
  datatype CakeView = CakeView(id: nat, name: string, imageUrl: string, createdAt: int, userId: nat, user: Owner)

  function View(c: CakeRow): CakeView {
    CakeView(c.id, c.name, c.imageUrl, c.createdAt, c.userId, Owner(c.owner.id, c.owner.name))
  }

  /** The feed's `metadata` object. */
  datatype Metadata = Metadata(currentPage: int, pageSize: int, totalPages: nat, totalItems: nat)
}
