/** `Transformer.toUserResponse`: the projection of a user record onto its public fields. */
module Transformer {
  import opened Users

  /** Copies id, name, email and creation time; the result type has no password or update timestamp. */
  function ToUserResponse(user: User): (r: UserResponse)
    ensures r.id == user.id && r.name == user.name && r.email == user.email && r.createdAt == user.createdAt
  {
    UserResponse(user.id, user.name, user.email, user.createdAt)
  }

  /** The projection forgets exactly the password and the update timestamp: two records have the same
    * projection if and only if they differ at most in those two fields. */
  lemma ProjectionForgetsExactlySecrets(a: User, b: User)
    ensures ToUserResponse(a) == ToUserResponse(b) <==> a.(password := b.password, updatedAt := b.updatedAt) == b
  {
  }
}
