/**
 * User records as the controllers see them, the bcrypt pair the controllers
 * call, and the public projection of a user that is sent back to clients.
 */
module Users {
  import opened Common

  type Id = string

  /**
   * The value in a user's `password` field: a bcrypt digest, or a string the
   * controllers wrote there without hashing it.
   */
  datatype StoredPassword = Hashed(digest: string) | Plain(text: string)

  datatype User = User(
    username: string,
    email: string,
    password: StoredPassword,
    avatar: Field,      // absent when the schema default applies
    authMethod: Field   // "google" for accounts provisioned by Google sign-in
  )

  type UserStore = map<Id, User>

  /** Everything the response may carry about a user: the record without `password`. */
  datatype PublicUser = PublicUser(id: Id, username: string, email: string, avatar: Field, authMethod: Field)

  function Public(id: Id, u: User): PublicUser {
    PublicUser(id, u.username, u.email, u.avatar, u.authMethod)
  }

  /**
   * `bcrypt.hash` / `bcrypt.compareSync`, left uninterpreted. Salting is not
   * modelled: `hash` is one fixed function.
   */
  datatype Hasher = Hasher(hash: string -> string, compare: (string, string) -> bool)

  /** The one property assumed of bcrypt: a password matches its own digest. */
  ghost predicate Sound(h: Hasher) {
    forall p :: h.compare(p, h.hash(p))
  }

  /**
   * `compareSync(candidate, stored)`. A stored value that is not a digest
   * never matches (bcryptjs answers `false` for a string that is not
   * 60 characters long, and the only such value the controllers write is "").
   */
  predicate Verify(h: Hasher, candidate: string, stored: StoredPassword) {
    stored.Hashed? && h.compare(candidate, stored.digest)
  }

  /** Every stored password is a digest. */
  ghost predicate AllHashed(users: UserStore) {
    forall id :: id in users ==> users[id].password.Hashed?
  }

  /** The JSON body of `POST /api/user/update/:id`. */
  datatype UpdateBody = UpdateBody(
    username: Field,
    email: Field,
    password: Field,
    currentPassword: Field,
    avatar: Field
  )
}
