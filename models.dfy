/**
  The blog's entity records: users, posts, comments and interactions.

  A user is an object whose constructor and `SetPassword` assign its fields.
  Posts, comments and interactions are rows: values that the store keeps in
  its tables and replaces as a whole.

  Password hashing is foreign code. It is modelled by a key-derivation
  function `kdf` from (salt, password) to a digest, passed in as a parameter,
  and by a salt that stands for the random bytes the hashing library draws.
 */
module Models {

  datatype Option<T> = None | Some(value: T)

  type UserId = nat
  type PostId = nat

  /** The hashing library's derivation of a digest from a salt and a password. */
  type Kdf = (string, string) -> string

  /** What the `password_hash` column holds: the salt and the derived digest. */
  datatype PasswordHash = PasswordHash(salt: string, digest: string)

  function GeneratePasswordHash(kdf: Kdf, salt: string, password: string): PasswordHash {
    PasswordHash(salt, kdf(salt, password))
  }

  /** Re-derives the digest with the stored salt and compares. */
  predicate CheckPasswordHash(kdf: Kdf, h: PasswordHash, password: string) {
    kdf(h.salt, password) == h.digest
  }

  /** Different passwords never derive the same digest under one salt. */
  ghost predicate CollisionFree(kdf: Kdf) {
    forall salt, p, q :: kdf(salt, p) == kdf(salt, q) ==> p == q
  }

  /** A hash made from a password accepts that password; under a collision-free
      derivation it accepts no other. */
  lemma {:induction false} PasswordRoundTrip(kdf: Kdf, salt: string, password: string, attempt: string)
    requires CollisionFree(kdf)
    ensures CheckPasswordHash(kdf, GeneratePasswordHash(kdf, salt, password), attempt) <==> attempt == password
  {
    if CheckPasswordHash(kdf, GeneratePasswordHash(kdf, salt, password), attempt) {
      assert kdf(salt, attempt) == kdf(salt, password);
    }
  }

  class User {
    var email: string
    var username: string
    var passwordHash: PasswordHash

    /** A new user keeps the given email and username and, of the password,
        only its hash. */
    constructor (email: string, username: string, password: string, kdf: Kdf, salt: string)
      ensures this.email == email && this.username == username
      ensures passwordHash == GeneratePasswordHash(kdf, salt, password)
      ensures CheckPassword(kdf, password)
    {
      this.email := email;
      this.username := username;
      new;
      SetPassword(password, kdf, salt);
    }

    method SetPassword(password: string, kdf: Kdf, salt: string)
      modifies this`passwordHash
      ensures passwordHash == GeneratePasswordHash(kdf, salt, password)
      ensures CheckPassword(kdf, password)
    {
      passwordHash := GeneratePasswordHash(kdf, salt, password);
    }

    /** `check_password`: re-deriving the hash from the password with the stored
        salt gives back the stored hash. */
    predicate CheckPassword(kdf: Kdf, password: string)
      reads this
      ensures CheckPassword(kdf, password) <==> GeneratePasswordHash(kdf, passwordHash.salt, password) == passwordHash
    {
      CheckPasswordHash(kdf, passwordHash, password)
    }
  }

  /** A post row: `owner` is the `user_id` column, the post's author. */
  datatype Post = Post(title: string, content: string, owner: UserId)

  /** A comment row links one author and one post. */
  datatype Comment = Comment(body: string, author: UserId, post: PostId)

  /** An interaction row links one user, one post and a reaction tag. */
  datatype Interaction = Interaction(user: UserId, post: PostId, reaction: string)

  /** The only reaction the handlers create. */
  const Like: string := "like"
}
