/**
 * The account row. app/models/user.py is not part of this model: the
 * columns below are the ones the routes read and write
 * (user_id, username, email, the password digest, profile_image).
 */
module UserModel {
  import opened Wrappers

  datatype User = User(
    username: string,
    email: string,
    passwordHash: string,
    profileImage: Option<string>)
  {
    /** The text columns the routes write hold no U+0000, which PostgreSQL text cannot store. */
    predicate WellFormed()
    {
      '\0' !in username && '\0' !in email && (profileImage.Some? ==> '\0' !in profileImage.value)
    }
  }

  /**
   * The credential store: `set_password` stores `hash(password)`,
   * `check_password(p)` asks `check(p, digest)`. Salting and the hash
   * itself belong to the library.
   */
  datatype Credentials = Credentials(hash: string -> string, check: (string, string) -> bool)

  /** A credential store that accepts the password a digest was made from. */
  ghost predicate Sound(cred: Credentials)
  {
    forall p :: cred.check(p, cred.hash(p))
  }
}
