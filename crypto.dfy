/** A stand-in for the BCrypt digest the controller uses to store and check
    passwords. BCrypt itself is a foreign cryptographic primitive: here the
    digest is a fixed, unsalted encoding, and verification succeeds exactly
    when the stored digest is the digest of the candidate. The model relies
    only on a password verifying against its own digest. */
module Crypto {

  const DigestTag: string := "$2b$"

  /** `BCryptDigest().hash(password)` */
  function Hash(password: string): string {
    DigestTag + password
  }

  /** `BCryptDigest().verify(password, created: digest)` */
  predicate Verify(password: string, digest: string) {
    digest == Hash(password)
  }

  /** A password always verifies against its own digest. */
  lemma VerifyHash(password: string)
    ensures Verify(password, Hash(password))
  {
  }
}
