/** The password-hashing primitive, as the services use it. */
module Bcrypt {
  import opened Wrappers

  /** `generate` stands for `bcrypt.GenerateFromPassword` (`None`: the library
      refused the password); `compare` for `bcrypt.CompareHashAndPassword`
      returning no error. */
  datatype Hasher = Hasher(generate: string -> Option<string>, compare: (string, string) -> bool)

  /** The only property of bcrypt the model relies on: a hash generated from a
      password verifies that password. */
  ghost predicate Sound(h: Hasher) {
    forall p :: h.generate(p).Some? ==> h.compare(h.generate(p).value, p)
  }
}
