/** Password hashing as the controllers use it (`bcrypt.hash` and
    `bcrypt.compare`), abstracted to what the model needs: a comparison
    succeeds exactly when the password is the one the digest was made from.
    Real bcrypt differs in two ways the model does not follow. Its digests
    are salted, so hashing one password twice gives different digests; the
    model gives equal ones, and nothing in the controllers compares two
    digests. It also reads only the first 72 bytes of a password, so two
    long passwords that share those bytes match each other; the model
    treats every pair of distinct passwords as distinct. Cost factor and
    timing are not modelled either. */
module Credentials {

  import opened Wrappers

  /** A password digest. Its only observable property in the model is
      equality; the controllers never read a password back from it. */
  datatype Digest = BcryptDigest(preimage: string)

  /** `bcrypt.hash(password, 10)`. */
  function Hash(password: string): (d: Digest)
  {
    BcryptDigest(password)
  }

  /** The second argument of `bcrypt.compare`: a stored digest, or the empty
      string the sign-in handler substitutes when the record has no password
      (`user.password || ""`). */
  datatype HashText = DigestText(digest: Digest) | EmptyText

  function StoredText(stored: Option<Digest>): (t: HashText)
    ensures t == EmptyText <==> stored.None?
    ensures stored.Some? ==> t == DigestText(stored.value)
  {
    match stored
    case Some(d) => DigestText(d)
    case None => EmptyText
  }

  /** `bcrypt.compare(password, text)`; an empty string is not a well-formed
      digest, and bcrypt answers false for it. */
  predicate Compare(password: string, text: HashText)
  {
    text.DigestText? && text.digest == Hash(password)
  }

  /** In the model, hashing loses no distinction between passwords (bcrypt
      itself truncates at 72 bytes and salts each digest). */
  lemma HashInjective(p: string, q: string)
    ensures Hash(p) == Hash(q) <==> p == q
  {
  }

  /** A password matches a digest exactly when the digest was made from it. */
  lemma CompareHash(p: string, q: string)
    ensures Compare(p, DigestText(Hash(q))) <==> p == q
  {
  }

  /** No password matches the empty string. */
  lemma CompareEmpty(p: string)
    ensures !Compare(p, EmptyText)
  {
  }
}
