/** The cryptographic primitives, taken as parameters: SHA-256, the decoding of public keys, and ECDSA. */
module Crypto {
  import opened Bytes

  type Digest = d: Bytes | |d| == 32 witness Zeros(32)
  type Pub = p: Bytes | |p| == 65 witness Zeros(65)
  type SigBuffer = s: Bytes | |s| == 72 witness Zeros(72)

  datatype Sign = Sign(sig: SigBuffer, len: byte)

  /** An EC_KEY: the private part, and the public point in its 65-byte uncompressed form. */
  datatype EcKey = EcKey(secret: Bytes, pub: Pub)

  /** `fromPub` is the decoding of a public key followed by its re-encoding, None when the bytes are not a point.
      The number given to `sign` stands for the randomness ECDSA draws. */
  datatype Suite = Suite(
    sha256: Bytes -> Digest,
    fromPub: Pub -> Option<Pub>,
    sign: (Bytes, Digest, nat) -> Option<Sign>,
    verify: (Pub, Digest, Sign) -> bool)

  const NO_SIGN: Sign := Sign(Zeros(72), 0)

  predicate Verifies(c: Suite, pub: Pub, msg: Digest, sig: Sign) {
    var point := c.fromPub(pub);
    point.Some? && c.verify(point.value, msg, sig)
  }

  /** The two halves of the key belong together: what it signs, when signing does not fail, verifies. */
  ghost predicate KeyPair(c: Suite, key: EcKey) {
    forall msg: Digest, n: nat ::
      var s := c.sign(key.secret, msg, n);
      s.Some? ==> Verifies(c, key.pub, msg, s.value)
  }

  /** The empty signature of an input nobody has signed verifies under no message. */
  ghost predicate RefusesUnsigned(c: Suite, pub: Pub) {
    forall msg: Digest :: !Verifies(c, pub, msg, NO_SIGN)
  }

  /** Two different strings with the same digest. */
  ghost predicate Collision(c: Suite, x: Bytes, y: Bytes) {
    x != y && c.sha256(x) == c.sha256(y)
  }
}
