/** `hashPassword` and `checkPassword`, over an abstract bcrypt. */
module Passwords {
  import opened Wrappers
  import opened Domain

  /** The random salt bcrypt draws for each hash, made an input. */
  type Salt = nat

  /** bcrypt as a pair of functions: `generate` is `GenerateFromPassword` at
      the default cost (`None` when it fails), `compare(hash, password)` is
      `CompareHashAndPassword` succeeding. Cost, salt encoding and
      constant-time comparison are not modelled. */
  datatype Bcrypt = Bcrypt(generate: (string, Salt) -> Option<string>, compare: (string, string) -> bool)

  /** The one law the model relies on: a password verifies against any hash
      made from it. That distinct passwords fail is NOT assumed: bcrypt reads
      only the first 72 bytes of a password. */
  ghost predicate SoundBcrypt(b: Bcrypt) {
    forall p: string, salt: Salt :: b.generate(p, salt).Some? ==> b.compare(b.generate(p, salt).value, p)
  }

  /** `hashPassword`: the hash, or the hashing error. */
  function HashPassword(b: Bcrypt, password: string, salt: Salt): (r: Result<string, Error>)
    ensures r.Ok? <==> b.generate(password, salt).Some?
    ensures r.Err? ==> r.error == HashingFailed
    ensures SoundBcrypt(b) && r.Ok? ==> b.compare(r.value, password)
  {
    match b.generate(password, salt)
    case None => Err(HashingFailed)
    case Some(h) => Ok(h)
  }

  /** `checkPassword`: nil exactly when bcrypt accepts the password. */
  function CheckPassword(b: Bcrypt, password: string, hash: string): (r: Result<(), Error>)
    ensures r.Ok? <==> b.compare(hash, password)
    ensures r.Err? ==> r.error == PasswordMismatch
  {
    if b.compare(hash, password) then Ok(()) else Err(PasswordMismatch)
  }

  /** A password checks against the hash `hashPassword` made of it. */
  lemma HashThenCheck(b: Bcrypt, password: string, salt: Salt)
    requires SoundBcrypt(b)
    requires HashPassword(b, password, salt).Ok?
    ensures CheckPassword(b, password, HashPassword(b, password, salt).value) == Ok(())
  {
  }
}
