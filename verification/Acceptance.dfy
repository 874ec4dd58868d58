/**
 Acceptance of transactions: construction checks, proof of work and fee, for normal transactions in
 uncommitted form and for the committed user transactions they become.
 */
module Acceptance {
  import opened Bytes
  import opened Collections
  import opened Crypto
  import opened Errors
  import opened Ordering
  import Fees
  import Tx = Transactions

  const RING_SIZE := 512
  const MAXIMUM_INPUTS := 8
  const MINIMUM_OUTPUTS := 2
  const MAXIMUM_OUTPUTS := 8
  const MAXIMUM_EXTRA_SIZE := 1024

  /** A normal transaction with its signatures and range proof still attached. */
  datatype Uncommitted = Uncommitted(
    prefix: Tx.Prefix,
    body: Tx.Body,
    extra: Data,
    pseudoCommitments: seq<Key>,
    ringParticipants: seq<Key>,
    signatures: seq<RingSignature>,
    rangeProof: RangeProof)

  // ---------------------------------------------------------------- bytes and hashes

  function EncodeRingSignature(g: RingSignature): Data {
    g
  }

  /** The bytes behind `signature_hash`. */
  function SignatureBytes(u: Uncommitted): Data {
    EncodeList(Tx.EncodeKey, u.pseudoCommitments) +
    (EncodeList(Tx.EncodeKey, u.ringParticipants) + EncodeList(EncodeRingSignature, u.signatures))
  }

  function DigestBytes(u: Uncommitted): Data {
    Tx.EncodeDigest(u.prefix, u.body, Tx.NormalData(u.extra))
  }

  function Encode(u: Uncommitted): Data {
    DigestBytes(u) + (SignatureBytes(u) + u.rangeProof)
  }

  function CommittedSize(u: Uncommitted): nat {
    |DigestBytes(u)| + 32 + 32
  }

  function SuffixOf(p: Primitives, u: Uncommitted): Tx.Suffix {
    Tx.Suffix(p.sha3(SignatureBytes(u)), p.rangeProofHash(u.rangeProof))
  }

  function Hash(p: Primitives, u: Uncommitted): Key {
    Tx.UserHash(p, DigestBytes(u), SuffixOf(p, u))
  }

  function ProofOfWork(p: Primitives, digestBytes: Data, rangeProofHash: Key): Key {
    p.argon2id(p.sha3(digestBytes + rangeProofHash))
  }

  function Zeros(p: Primitives, u: Uncommitted): ZeroBits {
    p.leadingZeros(ProofOfWork(p, DigestBytes(u), p.rangeProofHash(u.rangeProof)))
  }

  /** The committed form gets the normal tag from its constructor, everything else is copied. */
  function ToCommitted(p: Primitives, u: Uncommitted): Tx.Transaction {
    Tx.User(u.prefix.(header := Tx.Header(Tx.NORMAL, u.prefix.header.version)), u.body, Tx.NormalData(u.extra),
            SuffixOf(p, u))
  }

  // ---------------------------------------------------------------- construction checks

  function CheckOutput(o: Tx.Output): ErrorCode {
    if o.publicEphemeral == EMPTY_KEY then TX_OUTPUT_PUBLIC_EPHEMERAL
    else if o.amount == 0 then TX_OUTPUT_AMOUNT
    else if o.commitment == EMPTY_KEY then TX_OUTPUT_COMMITMENT
    else SUCCESS
  }

  function CheckOutputs(os: seq<Tx.Output>): ErrorCode {
    if os == [] then SUCCESS
    else if CheckOutput(os[0]) != SUCCESS then CheckOutput(os[0])
    else CheckOutputs(os[1..])
  }

  predicate AllInSubgroup(p: Primitives, ks: seq<Key>) {
    forall i | 0 <= i < |ks| :: p.inSubgroup(ks[i])
  }

  /** The checks every user transaction makes before looking at its own data. */
  function CheckCommon(p: Primitives, versions: set<uint64>, prefix: Tx.Prefix, body: Tx.Body): ErrorCode {
    if prefix.header.version !in versions then TX_INVALID_VERSION
    else if prefix.publicKey == EMPTY_KEY then TX_PUBLIC_KEY
    else if body.fee == 0 then TX_MISSING_FEE
    else if body.keyImages == [] || |body.keyImages| > MAXIMUM_INPUTS then TX_INVALID_INPUT_COUNT
    else if !AllInSubgroup(p, body.keyImages) then TX_INVALID_KEY_IMAGE
    else if |InsertAll(Tx.EncodeKey, [], body.keyImages)| != |body.keyImages| then TX_DUPLICATE_KEY_IMAGE
    else if |body.outputs| < MINIMUM_OUTPUTS || |body.outputs| > MAXIMUM_OUTPUTS then TX_INVALID_OUTPUT_COUNT
    else CheckOutputs(body.outputs)
  }

  function Versions(d: Tx.UserData): set<uint64> {
    if d.NormalData? then {1} else {1, 2}
  }

  function CheckData(d: Tx.UserData): ErrorCode {
    match d
    case NormalData(extra) => if |extra| > MAXIMUM_EXTRA_SIZE then TX_EXTRA_TOO_LARGE else SUCCESS
    case StakeData(amount, candidate, viewKey, spendKey) =>
      if amount == 0 then TX_STAKE_NO_AMOUNT
      else if candidate == EMPTY_KEY then STAKING_CANDIDATE_NOT_FOUND
      else if viewKey == EMPTY_KEY then TX_PUBLIC_VIEW_KEY_NOT_FOUND
      else if spendKey == EMPTY_KEY then TX_PUBLIC_SPEND_KEY_NOT_FOUND
      else SUCCESS
    case RecallData(amount, candidate, stakerId, viewSignature, spendSignature) =>
      if amount == 0 then TX_STAKE_NO_AMOUNT
      else if candidate == EMPTY_KEY then STAKING_CANDIDATE_NOT_FOUND
      else if stakerId == EMPTY_KEY then TX_STAKER_ID
      else if viewSignature == EMPTY_SIGNATURE then TX_RECALL_VIEW_SIGNATURE
      else if spendSignature == EMPTY_SIGNATURE then TX_RECALL_SPEND_SIGNATURE
      else SUCCESS
  }

  /** `check_construction` of the committed user transactions. */
  function ConstructionOfUser(p: Primitives, prefix: Tx.Prefix, body: Tx.Body, data: Tx.UserData): ErrorCode {
    var e := CheckCommon(p, Versions(data), prefix, body);
    if e != SUCCESS then e else CheckData(data)
  }

  function Commitments(os: seq<Tx.Output>): (cs: seq<Key>)
    ensures |cs| == |os| && forall i :: 0 <= i < |cs| ==> cs[i] == os[i].commitment
  {
    seq(|os|, i requires 0 <= i < |os| => os[i].commitment)
  }

  predicate AllWellBuilt(p: Primitives, gs: seq<RingSignature>) {
    forall i | 0 <= i < |gs| :: p.ringSignatureWellBuilt(gs[i], RING_SIZE)
  }

  /** `check_construction` of an uncommitted normal transaction. */
  function ConstructionOfUncommitted(p: Primitives, u: Uncommitted): ErrorCode {
    var e := ConstructionOfUser(p, u.prefix, u.body, Tx.NormalData(u.extra));
    if e != SUCCESS then e
    else if |u.body.keyImages| != |u.pseudoCommitments| then TX_INVALID_PSEUDO_COMMITMENT_COUNT
    else if !p.commitmentsBalance(u.pseudoCommitments, Commitments(u.body.outputs), u.body.fee) then
      TX_COMMITMENTS_DO_NOT_BALANCE
    else if !p.rangeProofWellBuilt(u.rangeProof) then TX_INVALID_RANGE_PROOF
    else if |u.body.keyImages| != |u.signatures| then TX_SIG_SIZE_MISMATCH
    else if !AllWellBuilt(p, u.signatures) then TX_INVALID_SIGNATURE
    else SUCCESS
  }

  /** Proof of work first, then the fee the size and the work require. */
  function CheckWorkAndFee(fee: uint64, size: nat, zeros: ZeroBits): ErrorCode {
    if zeros < Fees.MINIMUM_POW_ZEROS then TX_MINIMUM_POW
    else if fee < RequiredFee(size, zeros) then TX_LOW_FEE
    else SUCCESS
  }

  function RequiredFee(size: nat, zeros: ZeroBits): int {
    Fees.TransactionFee(size, zeros).value
  }

  function CheckUncommitted(p: Primitives, u: Uncommitted): ErrorCode {
    var e := ConstructionOfUncommitted(p, u);
    if e != SUCCESS then e else CheckWorkAndFee(u.body.fee, |Encode(u)|, Zeros(p, u))
  }

  function CheckUser(p: Primitives, tx: Tx.Transaction): ErrorCode
    requires tx.User?
  {
    var e := ConstructionOfUser(p, tx.prefix, tx.body, tx.data);
    if e != SUCCESS then e
    else
      var digest := Tx.EncodeDigest(tx.prefix, tx.body, tx.data);
      CheckWorkAndFee(tx.body.fee, |Tx.Encode(tx)|, p.leadingZeros(ProofOfWork(p, digest, tx.suffix.rangeProofHash)))
  }

  // ---------------------------------------------------------------- what the checks establish

  /** A transaction that passes construction has key images, and no two of them are equal. */
  lemma CheckedKeyImages(p: Primitives, tx: Tx.Transaction)
    requires tx.User? && CheckUser(p, tx) == SUCCESS
    ensures tx.body.keyImages != [] && Distinct(tx.body.keyImages)
  {
    hide CheckOutputs;
    hide CheckData;
    hide CheckWorkAndFee;
    hide ProofOfWork;
    hide Tx.EncodeDigest;
    hide Tx.Encode;
    DedupeLength(Tx.EncodeKey, [], tx.body.keyImages);
  }

  /** Committing changes the signed bytes exactly when the type tag was not the normal one. */
  lemma CommittedDigest(p: Primitives, u: Uncommitted)
    ensures
      var c := ToCommitted(p, u);
      Tx.EncodeDigest(c.prefix, c.body, c.data) == DigestBytes(u) <==> u.prefix.header.txType == Tx.NORMAL
  {
    var c := ToCommitted(p, u);
    if Tx.EncodeDigest(c.prefix, c.body, c.data) == DigestBytes(u) {
      var more := Tx.EncodeBody(u.body) + Tx.EncodeData(c.data);
      Tx.PrefixRoundTrip(c.prefix, more);
      Tx.PrefixRoundTrip(u.prefix, more);
    }
  }

  /** Both forms share hash and proof-of-work hash; the hash covers the digest and both suffix hashes. */
  lemma CommittedHashes(p: Primitives, u: Uncommitted)
    requires u.prefix.header.txType == Tx.NORMAL
    ensures ToCommitted(p, u).Tagged()
    ensures Tx.Hash(p, ToCommitted(p, u)) == Hash(p, u)
    ensures Hash(p, u) ==
      p.sha3(p.sha3(DigestBytes(u)) + (p.sha3(SignatureBytes(u)) + p.rangeProofHash(u.rangeProof)))
    ensures
      var c := ToCommitted(p, u);
      ProofOfWork(p, Tx.EncodeDigest(c.prefix, c.body, c.data), c.suffix.rangeProofHash) ==
      ProofOfWork(p, DigestBytes(u), p.rangeProofHash(u.rangeProof))
  {
    CommittedDigest(p, u);
  }

  /** The committed form has the announced size, and it is the smaller one. */
  lemma CommittedIsSmaller(p: Primitives, u: Uncommitted)
    requires RingSignaturesCarryScalars(p)
    requires u.prefix.header.txType == Tx.NORMAL
    requires ConstructionOfUncommitted(p, u) == SUCCESS
    ensures |Tx.Encode(ToCommitted(p, u))| == CommittedSize(u) < |Encode(u)|
  {
    CommittedDigest(p, u);
    var g := u.signatures;
    assert |g| >= 1;
    assert p.ringSignatureWellBuilt(g[0], RING_SIZE);
    assert EncodeAll(EncodeRingSignature, g) == g[0] + EncodeAll(EncodeRingSignature, g[1..]);
  }

  /** The work behind the committed form. */
  function CommittedZeros(p: Primitives, u: Uncommitted): ZeroBits {
    var c := ToCommitted(p, u);
    p.leadingZeros(ProofOfWork(p, Tx.EncodeDigest(c.prefix, c.body, c.data), c.suffix.rangeProofHash))
  }

  /** Whatever the tag was, the committed form is no larger than announced. */
  lemma CommittedNotLarger(p: Primitives, u: Uncommitted)
    requires RingSignaturesCarryScalars(p) && ConstructionOfUncommitted(p, u) == SUCCESS
    ensures |Tx.Encode(ToCommitted(p, u))| <= CommittedSize(u) < |Encode(u)|
  {
    var normal := u.(prefix := u.prefix.(header := Tx.Header(Tx.NORMAL, u.prefix.header.version)));
    CommittedIsSmaller(p, normal);
    assert |EncodeVarint(Tx.NORMAL)| == 1;
    TagLength(u, normal);
  }

  lemma TagLength(u: Uncommitted, normal: Uncommitted)
    requires normal == u.(prefix := u.prefix.(header := Tx.Header(Tx.NORMAL, u.prefix.header.version)))
    ensures |DigestBytes(u)| - |DigestBytes(normal)| ==
      |EncodeVarint(u.prefix.header.txType)| - |EncodeVarint(Tx.NORMAL)|
    ensures |Encode(u)| - |Encode(normal)| == |DigestBytes(u)| - |DigestBytes(normal)|
  {
    hide EncodeVarint;
    hide EncodeList;
    hide Tx.EncodeBody;
    hide Tx.EncodeData;
  }

  /**
   Acceptance carries over if and only if the work of the committed form is enough for its own fee: the
   construction checks are implied. It always does for the normal tag, where the work is the same and the
   smaller form requires no larger fee, and for any tag whose committed work is not less.
   */
  lemma AcceptanceCarriesOver(p: Primitives, u: Uncommitted)
    requires RingSignaturesCarryScalars(p) && CheckUncommitted(p, u) == SUCCESS
    ensures CheckUser(p, ToCommitted(p, u)) == SUCCESS <==>
      CommittedZeros(p, u) >= Fees.MINIMUM_POW_ZEROS &&
      u.body.fee >= RequiredFee(|Tx.Encode(ToCommitted(p, u))|, CommittedZeros(p, u))
    ensures CommittedZeros(p, u) >= Zeros(p, u) ==> CheckUser(p, ToCommitted(p, u)) == SUCCESS
    ensures u.prefix.header.txType == Tx.NORMAL ==> CheckUser(p, ToCommitted(p, u)) == SUCCESS
  {
    CommittedNotLarger(p, u);
    if u.prefix.header.txType == Tx.NORMAL {
      CommittedHashes(p, u);
    }
    if CommittedZeros(p, u) >= Zeros(p, u) {
      Fees.FeeMonotone(|Tx.Encode(ToCommitted(p, u))|, |Encode(u)|, Zeros(p, u), CommittedZeros(p, u));
    }
  }

  /**
   With another tag the committed form is hashed anew, and nothing protects it: the same transaction is
   accepted before and rejected after commitment as soon as the new hash has no leading zeros.
   */
  lemma OtherTagMayBeRejected(p: Primitives, u: Uncommitted) returns (q: Primitives)
    requires CheckUncommitted(p, u) == SUCCESS
    requires
      var c := ToCommitted(p, u);
      ProofOfWork(p, Tx.EncodeDigest(c.prefix, c.body, c.data), c.suffix.rangeProofHash) !=
      ProofOfWork(p, DigestBytes(u), p.rangeProofHash(u.rangeProof))
    ensures u.prefix.header.txType != Tx.NORMAL
    ensures q == p.(leadingZeros := q.leadingZeros)
    ensures CheckUncommitted(q, u) == SUCCESS && CheckUser(q, ToCommitted(q, u)) == TX_MINIMUM_POW
  {
    hide ConstructionOfUncommitted;
    hide ConstructionOfUser;
    hide RequiredFee;
    hide Tx.Encode;
    hide Encode;
    hide DigestBytes;
    hide SignatureBytes;
    hide Tx.EncodeDigest;
    var c := ToCommitted(p, u);
    var work := ProofOfWork(p, Tx.EncodeDigest(c.prefix, c.body, c.data), c.suffix.rangeProofHash);
    q := p.(leadingZeros := k => if k == work then 0 else p.leadingZeros(k));
    if u.prefix.header.txType == Tx.NORMAL {
      CommittedHashes(p, u);
    }
    SameConstruction(p, q, u);
    CommittedConstruction(p, u);
    CommittedConstruction(q, u);
  }

  /** The construction checks do not look at the work. */
  lemma SameConstruction(p: Primitives, q: Primitives, u: Uncommitted)
    requires q == p.(leadingZeros := q.leadingZeros)
    ensures ConstructionOfUncommitted(q, u) == ConstructionOfUncommitted(p, u)
  {
    hide CheckOutputs;
    hide CheckData;
    hide InsertAll;
    SameCommon(p, q, Versions(Tx.NormalData(u.extra)), u.prefix, u.prefix, u.body);
    hide CheckCommon;
  }

  lemma SameCommon(p: Primitives, q: Primitives, versions: set<uint64>, prefix: Tx.Prefix, other: Tx.Prefix,
                   body: Tx.Body)
    requires q == p.(leadingZeros := q.leadingZeros)
    requires other.header.version == prefix.header.version && other.publicKey == prefix.publicKey
    ensures CheckCommon(q, versions, other, body) == CheckCommon(p, versions, prefix, body)
  {
    hide CheckOutputs;
    hide InsertAll;
  }

  /** The committed form passes its construction checks. */
  lemma CommittedConstruction(p: Primitives, u: Uncommitted)
    ensures
      var c := ToCommitted(p, u);
      ConstructionOfUncommitted(p, u) == SUCCESS ==> ConstructionOfUser(p, c.prefix, c.body, c.data) == SUCCESS
  {
    hide CheckOutputs;
    hide InsertAll;
    hide CheckData;
    SameCommon(p, p, Versions(Tx.NormalData(u.extra)), u.prefix, ToCommitted(p, u).prefix, u.body);
    hide CheckCommon;
  }

  // ---------------------------------------------------------------- mining

  function WithNonce(u: Uncommitted, nonce: uint64): Uncommitted {
    u.(body := u.body.(nonce := nonce))
  }

  ghost predicate Works(p: Primitives, u: Uncommitted, nonce: uint64, zeros: nat) {
    Zeros(p, WithNonce(u, nonce)) >= zeros
  }

  /**
   The search keeps the present nonce if it works and otherwise takes the least working one from 1
   up; nonce 0 is passed over. It fails exactly when none of these works.
   */
  method Mine(p: Primitives, u: Uncommitted, zeros: nat) returns (found: bool, mined: Uncommitted)
    ensures mined == WithNonce(u, mined.body.nonce)
    ensures found == (Zeros(p, mined) >= zeros)
    ensures found <==>
      Works(p, u, u.body.nonce, zeros) || exists n: uint64 :: n > 0 && Works(p, u, n, zeros)
    ensures Works(p, u, u.body.nonce, zeros) ==> mined == u
    ensures found && mined != u ==> forall n: uint64 :: 0 < n < mined.body.nonce ==> !Works(p, u, n, zeros)
  {
    hide Zeros;
    mined := u;
    assert WithNonce(u, u.body.nonce) == u;
    if Zeros(p, mined) >= zeros {
      return true, mined;
    }
    var reached := Zeros(p, mined);
    mined := WithNonce(mined, 0);
    while reached < zeros && mined.body.nonce != TWO_64 - 1
      invariant mined == WithNonce(u, mined.body.nonce)
      invariant mined.body.nonce > 0 ==> reached == Zeros(p, mined)
      invariant mined.body.nonce == 0 ==> reached < zeros
      invariant forall n: uint64 :: 0 < n < mined.body.nonce ==> !Works(p, u, n, zeros)
      decreases TWO_64 - mined.body.nonce
    {
      mined := WithNonce(mined, mined.body.nonce + 1);
      reached := Zeros(p, mined);
    }
    found := reached >= zeros;
    assert found ==> Works(p, u, mined.body.nonce, zeros);
    if !found {
      forall n: uint64 | n > 0 ensures !Works(p, u, n, zeros) {
        if n == mined.body.nonce {
          assert WithNonce(u, n) == mined;
        }
      }
    }
  }
}
