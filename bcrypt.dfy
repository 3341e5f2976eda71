/**
 * The two bcrypt calls the services make, kept abstract: `hash` is a salted
 * one-way transform (the salt is bcrypt's random draw, passed in explicitly) and
 * `compare` checks a plaintext against a stored hash. Salting, the cost factor
 * (10 rounds at src/users/users.service.ts:21) and timing are not modelled.
 */
module Bcrypt {

  /** The random salt bcrypt draws on each call to `hash`. */
  type Salt = nat

  datatype Hasher = Hasher(hash: (string, Salt) -> string, compare: (string, string) -> bool)

  /** The one link between the two calls: a plaintext matches every hash made from it. */
  ghost predicate Sound(h: Hasher) {
    forall p, s :: h.compare(p, h.hash(p, s))
  }
}
