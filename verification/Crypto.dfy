/**
 The cryptographic library, which is external to the repository, as a record of functions.
 Nothing is assumed about them unless a lemma says so in its `requires`.
 */
module Crypto {
  import opened Bytes

  /** The number of leading zero bits of a 256-bit hash. */
  type ZeroBits = n: nat | n <= 256

  /** A ring signature (CLSAG) and a range proof (Bulletproofs+) in serialised form. */
  type RingSignature = Data
  type RangeProof = Data

  datatype Primitives = Primitives(
    sha3: Data -> Key,
    argon2id: Key -> Key,
    leadingZeros: Key -> ZeroBits,
    publicKey: Key -> Key,
    sign: (Key, Key, nat) -> Signature,
    checkSignature: (Key, Key, Signature) -> bool,
    inSubgroup: Key -> bool,
    commitmentsBalance: (seq<Key>, seq<Key>, uint64) -> bool,
    rangeProofHash: RangeProof -> Key,
    rangeProofWellBuilt: RangeProof -> bool,
    rangeProofVerifies: (RangeProof, seq<Key>) -> bool,
    ringSignatureWellBuilt: (RingSignature, nat) -> bool,
    ringSignatureVerifies: (Key, Key, seq<Key>, RingSignature, seq<Key>) -> bool)

  /**
   A generated signature checks, whatever nonce went into it, and neither it nor the public key
   is the empty value.
   */
  ghost predicate SignaturesCheck(p: Primitives) {
    && (forall sk: Key :: p.publicKey(sk) != EMPTY_KEY)
    && (forall d: Key, sk: Key, nonce: nat ::
          && p.checkSignature(d, p.publicKey(sk), p.sign(d, sk, nonce))
          && p.sign(d, sk, nonce) != EMPTY_SIGNATURE)
  }

  /** A ring signature built over a ring of `n` members carries at least `n` 32-byte scalars. */
  ghost predicate RingSignaturesCarryScalars(p: Primitives) {
    forall g: RingSignature, n: nat :: p.ringSignatureWellBuilt(g, n) ==> |g| >= 32 * n
  }
}
