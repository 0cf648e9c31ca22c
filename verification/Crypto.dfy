/**
 SHA-256 and ed25519 as parameters. Every theorem that needs one of their promises asks for it
 by name, so that it holds for any hash function and signature scheme with that promise.
 */
module Crypto {
  import opened Texts
  import opened Json
  import opened Canonical

  datatype Suite = Suite(
    sha: Text -> Text,
    publicKeyOf: Text -> Text,
    sign: (Text, Text) -> Text,
    verify: (Text, Text, Text) -> bool)

  /** Distinct messages have distinct digests. */
  ghost predicate CollisionFree(c: Suite) {
    forall x, y :: c.sha(x) == c.sha(y) ==> x == y
  }

  /** What was signed with a private key verifies with its public key; neither prints as ''. */
  ghost predicate SignaturesVerify(c: Suite) {
    (forall sk, m :: c.verify(c.publicKeyOf(sk), m, c.sign(sk, m)) && c.sign(sk, m) != []) &&
    (forall sk :: c.publicKeyOf(sk) != [])
  }

  function CanonicalHash(c: Suite, v: Value): Text {
    c.sha(CanonText(v))
  }

  /** Equal canonical hashes mean equal values, up to the order of keys. */
  lemma CanonicalHashBinds(c: Suite, a: Value, b: Value)
    requires CollisionFree(c) && WellFormed(a) && WellFormed(b)
    ensures CanonicalHash(c, a) == CanonicalHash(c, b) <==> Forget(a) == Forget(b)
    ensures NoProto(a) && NoProto(b) ==>
      (CanonicalHash(c, a) == CanonicalHash(c, b) <==> SameUpToOrder(a, b))
  {
    CanonTextCharacterizes(a, b);
    if NoProto(a) && NoProto(b) {
      CanonTextEqualIffSame(a, b);
    }
  }
}
