/** The bcrypt wrapper, as an idealised salted one-way hash: the salt is the
    random input bcrypt draws, and a hash verifies exactly the password it was
    made from. */
module Hashing {

  /** Work factor passed to bcrypt. It does not influence verification. */
  const SaltRounds: nat := 12

  /** A stored password hash; `Empty` is a NULL or empty hash column. */
  datatype StoredHash = Empty | Bcrypt(salt: nat, secret: string)

  /** `hashPassword(password)` with the salt bcrypt drew. */
  function HashPassword(password: string, salt: nat): (h: StoredHash)
    ensures h != Empty
  {
    Bcrypt(salt, password)
  }

  /** `verifyPassword(password, hash)`: false, never an error, on a mismatch
      or on a missing hash. */
  function VerifyPassword(password: string, h: StoredHash): (ok: bool)
    ensures ok ==> h != Empty
  {
    h.Bcrypt? && h.secret == password
  }

  /** A hash verifies its own password and no other one. */
  lemma VerifyHashed(p: string, q: string, salt: nat)
    ensures VerifyPassword(q, HashPassword(p, salt)) <==> q == p
  {
  }

  /** Hashing the same password with two salts gives two hashes. */
  lemma HashIsSalted(p: string, salt1: nat, salt2: nat)
    requires salt1 != salt2
    ensures HashPassword(p, salt1) != HashPassword(p, salt2)
  {
  }
}
