/**
 Blocks: the byte encoding with its three digest modes, producer and validator signatures, and the
 construction check.
 */
module Blocks {
  import opened Bytes
  import opened Crypto
  import opened Ordering
  import Tx = Transactions

  type Transaction = Tx.Transaction

  /** Only two variants may reward a block. */
  type Reward = t: Transaction | t.Genesis? || t.Staker? witness Tx.Staker(Tx.Header(1, 1), [], [])

  datatype Endorsement = Endorsement(validator: Key, signature: Signature)

  datatype Mode = FULL | PRODUCER | VALIDATOR

  datatype Block = Block(
    version: uint64,
    previousHash: Key,
    timestamp: uint64,
    index: uint64,
    reward: Reward,
    transactions: seq<Key>,
    producerKey: Key,
    producerSignature: Signature,
    validators: seq<Endorsement>)
  {
    /** The invariant of `std::set` and `std::map`: members in strictly increasing order. */
    ghost predicate Ordered() {
      Sorted(Tx.EncodeKey, transactions) && Sorted(Signer, validators)
    }

    predicate HasProducer() {
      producerKey != EMPTY_KEY && producerSignature != EMPTY_SIGNATURE
    }

    /** Producer key and signature are both set or both default. */
    predicate ProducerConsistent() {
      HasProducer() || (producerKey == EMPTY_KEY && producerSignature == EMPTY_SIGNATURE)
    }

    ghost predicate WellFormed() {
      Ordered() && ProducerConsistent() && reward.Tagged()
    }

    predicate HasValidator(k: Key) {
      Endorses(validators, k)
    }
  }

  predicate Endorses(es: seq<Endorsement>, k: Key) {
    exists i | 0 <= i < |es| :: es[i].validator == k
  }

  function Signer(e: Endorsement): Data {
    e.validator
  }

  // ---------------------------------------------------------------- encoding

  function EncodeEndorsement(e: Endorsement): Data {
    e.validator + e.signature
  }

  function DecodeEndorsement(s: Data): Parsed<Endorsement> {
    var (k, s1) :- DecodeKey(s);
    var (g, s2) :- DecodeSignature(s1);
    Some((Endorsement(k, g), s2))
  }

  lemma EndorsementsInverse()
    ensures Inverse(EncodeEndorsement, DecodeEndorsement)
  {
    forall e: Endorsement, rest: Data
      ensures DecodeEndorsement(EncodeEndorsement(e) + rest) == Some((e, rest))
    {
      assert EncodeEndorsement(e) + rest == e.validator + (e.signature + rest);
      KeyRoundTrip(e.validator, e.signature + rest);
      SignatureRoundTrip(e.signature, rest);
    }
  }

  function FieldBytes(b: Block): Data {
    EncodeVarint(b.version) + (b.previousHash + (EncodeVarint(b.timestamp) + EncodeVarint(b.index)))
  }

  /** What the producer signs. */
  function ProducerBytes(b: Block): Data {
    FieldBytes(b) + (Tx.Encode(b.reward) + EncodeList(Tx.EncodeKey, b.transactions))
  }

  function ProducerSection(b: Block): Data {
    if b.HasProducer() then EncodeBool(true) + (b.producerKey + b.producerSignature) else EncodeBool(false)
  }

  function FullBytes(b: Block): Data {
    ProducerBytes(b) + (ProducerSection(b) + EncodeList(EncodeEndorsement, b.validators))
  }

  /** `None` is the exception raised for a validator digest without a producer signature. */
  function Serialize(b: Block, mode: Mode): Option<Data> {
    match mode
    case PRODUCER => Some(ProducerBytes(b))
    case VALIDATOR => if b.HasProducer() then Some(ProducerBytes(b) + ProducerSection(b)) else None
    case FULL => Some(FullBytes(b))
  }

  function DecodeReward(s: Data): Parsed<Reward> {
    var (tag, _) :- DecodeUint64(s);
    if tag == Tx.GENESIS then
      var (t, s1) :- Tx.DecodeGenesis(s);
      Some((t, s1))
    else if tag == Tx.STAKER then
      var (t, s1) :- Tx.DecodeStaker(s);
      Some((t, s1))
    else None
  }

  function DecodeProducer(s: Data): Parsed<Endorsement> {
    var (present, s1) :- DecodeBool(s);
    if !present then Some((Endorsement(EMPTY_KEY, EMPTY_SIGNATURE), s1)) else DecodeEndorsement(s1)
  }

  /** Deserialisation into a fresh block; ordered containers are filled by insertion. */
  function Decode(s: Data): Parsed<Block> {
    var (version, s1) :- DecodeUint64(s);
    var (previousHash, s2) :- DecodeKey(s1);
    var (timestamp, s3) :- DecodeUint64(s2);
    var (index, s4) :- DecodeUint64(s3);
    var (reward, s5) :- DecodeReward(s4);
    var (hashes, s6) :- DecodeList(DecodeKey, s5);
    var (producer, s7) :- DecodeProducer(s6);
    var (endorsements, s8) :- DecodeList(DecodeEndorsement, s7);
    Some((Block(version, previousHash, timestamp, index, reward, InsertAll(Tx.EncodeKey, [], hashes),
                producer.validator, producer.signature, InsertAll(Signer, [], endorsements)), s8))
  }

  lemma RewardRoundTrip(t: Reward, rest: Data)
    ensures t.Tagged() ==> DecodeReward(Tx.Encode(t) + rest) == Some((t, rest))
    ensures !t.Tagged() ==>
      DecodeReward(Tx.Encode(t) + rest).None? || DecodeReward(Tx.Encode(t) + rest).value.0 != t
  {
    Tx.PeekTag(t, rest);
    if t.Genesis? {
      Tx.GenesisRoundTrip(t, rest);
    } else {
      Tx.StakerRoundTrip(t, rest);
    }
  }

  lemma ProducerRoundTrip(b: Block, rest: Data)
    ensures DecodeProducer(ProducerSection(b) + rest) ==
      Some((if b.HasProducer() then Endorsement(b.producerKey, b.producerSignature)
            else Endorsement(EMPTY_KEY, EMPTY_SIGNATURE), rest))
  {
    var e := Endorsement(b.producerKey, b.producerSignature);
    if b.HasProducer() {
      assert ProducerSection(b) + rest == EncodeBool(true) + (EncodeEndorsement(e) + rest);
      BoolRoundTrip(true, EncodeEndorsement(e) + rest);
      EndorsementsInverse();
    } else {
      BoolRoundTrip(false, rest);
    }
  }

  /** The fixed fields are read back, leaving what follows. */
  lemma FieldsRoundTrip(b: Block, s4: Data) returns (s1: Data, s2: Data, s3: Data)
    ensures DecodeUint64(FieldBytes(b) + s4) == Some((b.version, s1))
    ensures DecodeKey(s1) == Some((b.previousHash, s2))
    ensures DecodeUint64(s2) == Some((b.timestamp, s3))
    ensures DecodeUint64(s3) == Some((b.index, s4))
  {
    var i := EncodeVarint(b.index);
    var t := EncodeVarint(b.timestamp);
    s3 := i + s4;
    s2 := t + s3;
    s1 := b.previousHash + s2;
    Assoc(t, i, s4);
    Assoc(b.previousHash, t + i, s4);
    Assoc(EncodeVarint(b.version), b.previousHash + (t + i), s4);
    Uint64RoundTrip(b.version, s1);
    KeyRoundTrip(b.previousHash, s2);
    Uint64RoundTrip(b.timestamp, s3);
    Uint64RoundTrip(b.index, s4);
  }

  /** The bytes after the fixed fields. */
  lemma FullBytesSplit(b: Block, rest: Data)
    ensures FullBytes(b) + rest == FieldBytes(b) + (Tx.Encode(b.reward) + (EncodeList(Tx.EncodeKey, b.transactions) +
      (ProducerSection(b) + (EncodeList(EncodeEndorsement, b.validators) + rest))))
  {
    var r, t := Tx.Encode(b.reward), EncodeList(Tx.EncodeKey, b.transactions);
    var s, v := ProducerSection(b), EncodeList(EncodeEndorsement, b.validators);
    Assoc(FieldBytes(b) + (r + t), s + v, rest);
    Assoc(FieldBytes(b), r + t, (s + v) + rest);
    Assoc(r, t, (s + v) + rest);
    Assoc(s, v, rest);
  }

  /** What decoding makes of the producer fields: half-set ones are lost. */
  function Normalised(b: Block): Block {
    if b.HasProducer() then b else b.(producerKey := EMPTY_KEY, producerSignature := EMPTY_SIGNATURE)
  }

  lemma TailRoundTrip(b: Block, rest: Data) returns (s6: Data, s7: Data)
    requires b.Ordered()
    ensures s7 == EncodeList(EncodeEndorsement, b.validators) + rest && s6 == ProducerSection(b) + s7
    ensures DecodeList(DecodeKey, EncodeList(Tx.EncodeKey, b.transactions) + s6) == Some((b.transactions, s6))
    ensures InsertAll(Tx.EncodeKey, [], b.transactions) == b.transactions
    ensures DecodeList(DecodeEndorsement, s7) == Some((b.validators, rest))
    ensures InsertAll(Signer, [], b.validators) == b.validators
  {
    s7 := EncodeList(EncodeEndorsement, b.validators) + rest;
    s6 := ProducerSection(b) + s7;
    Tx.KeysInverse();
    ListRoundTrip(Tx.EncodeKey, DecodeKey, b.transactions, s6);
    EndorsementsInverse();
    ListRoundTrip(EncodeEndorsement, DecodeEndorsement, b.validators, rest);
    InsertAllRebuilds(Tx.EncodeKey, [], b.transactions);
    InsertAllRebuilds(Signer, [], b.validators);
    assert [] + b.transactions == b.transactions && [] + b.validators == b.validators;
  }

  lemma TaggedBlockRoundTrip(b: Block, rest: Data)
    requires b.Ordered() && b.reward.Tagged()
    ensures Decode(FullBytes(b) + rest) == Some((Normalised(b), rest))
  {
    FullBytesSplit(b, rest);
    var s6, s7 := TailRoundTrip(b, rest);
    var s5 := EncodeList(Tx.EncodeKey, b.transactions) + s6;
    var s1, s2, s3 := FieldsRoundTrip(b, Tx.Encode(b.reward) + s5);
    RewardRoundTrip(b.reward, s5);
    ProducerRoundTrip(b, s7);
  }

  lemma UntaggedBlockIsLost(b: Block, rest: Data)
    requires !b.reward.Tagged()
    ensures Decode(FullBytes(b) + rest).None? || Decode(FullBytes(b) + rest).value.0.reward != b.reward
  {
    hide FullBytes;
    hide FieldBytes;
    hide DecodeReward;
    hide Tx.Encode;
    hide ProducerSection;
    FullBytesSplit(b, rest);
    var s5 := EncodeList(Tx.EncodeKey, b.transactions) +
      (ProducerSection(b) + (EncodeList(EncodeEndorsement, b.validators) + rest));
    var s1, s2, s3 := FieldsRoundTrip(b, Tx.Encode(b.reward) + s5);
    RewardRoundTrip(b.reward, s5);
  }

  /**
   The block codec is exact, through nested reward, counted lists and ordered containers, for the
   blocks whose reward carries its own tag and whose producer fields are both set or both default;
   for every other block something is lost.
   */
  lemma BlockRoundTrip(b: Block, rest: Data)
    requires b.Ordered()
    ensures Decode(FullBytes(b) + rest) == Some((b, rest)) <==> b.ProducerConsistent() && b.reward.Tagged()
  {
    if b.reward.Tagged() {
      TaggedBlockRoundTrip(b, rest);
    } else {
      UntaggedBlockIsLost(b, rest);
    }
  }

  // ---------------------------------------------------------------- digests and signatures

  function Digest(p: Primitives, b: Block, mode: Mode): Option<Key> {
    var bytes :- Serialize(b, mode);
    Some(p.sha3(bytes))
  }

  function Hash(p: Primitives, b: Block): Key {
    p.sha3(FullBytes(b))
  }

  /**
   The hash of a block is its full digest and commits to every field: two different well-formed blocks
   with the same hash are a collision of the hash function, on their serialised forms.
   */
  lemma HashCommits(p: Primitives, a: Block, b: Block)
    ensures Some(Hash(p, a)) == Digest(p, a, FULL)
    ensures a.WellFormed() && b.WellFormed() && a != b && Hash(p, a) == Hash(p, b) ==>
      FullBytes(a) != FullBytes(b) && p.sha3(FullBytes(a)) == p.sha3(FullBytes(b))
  {
    hide Decode;
    hide FullBytes;
    if a.WellFormed() && b.WellFormed() && FullBytes(a) == FullBytes(b) {
      BlockRoundTrip(a, []);
      BlockRoundTrip(b, []);
    }
  }

  function ProducerSign(p: Primitives, b: Block, secretKey: Key, nonce: nat): Block {
    b.(producerKey := p.publicKey(secretKey),
       producerSignature := p.sign(p.sha3(ProducerBytes(b)), secretKey, nonce))
  }

  function ValidatorSign(p: Primitives, b: Block, secretKey: Key, nonce: nat): Option<Block> {
    var digest :- Digest(p, b, VALIDATOR);
    var e := Endorsement(p.publicKey(secretKey), p.sign(digest, secretKey, nonce));
    Some(b.(validators := Insert(Signer, b.validators, e)))
  }

  /** A secret key and the nonce the signature generator drew. */
  type Signing = (Key, nat)

  /** Validators sign one after the other. */
  function SignAll(p: Primitives, b: Block, signings: seq<Signing>): Option<Block>
    decreases |signings|
  {
    if signings == [] then Some(b)
    else
      var b1 :- ValidatorSign(p, b, signings[0].0, signings[0].1);
      SignAll(p, b1, signings[1..])
  }

  predicate RewardPaysSomeone(t: Reward) {
    if t.Genesis? then t.outputs != [] else t.stakerOutputs != []
  }

  predicate AllCheck(p: Primitives, digest: Key, es: seq<Endorsement>) {
    forall i | 0 <= i < |es| :: p.checkSignature(digest, es[i].validator, es[i].signature)
  }

  /** `validate_construction`; `None` is the exception of a missing validator digest. */
  function ValidateConstruction(p: Primitives, b: Block): Option<bool> {
    if !RewardPaysSomeone(b.reward) then Some(false)
    else if b.HasValidator(b.producerKey) then Some(false)
    else if !p.checkSignature(p.sha3(ProducerBytes(b)), b.producerKey, b.producerSignature) then Some(false)
    else if b.validators == [] then Some(false)
    else
      var digest :- Digest(p, b, VALIDATOR);
      Some(AllCheck(p, digest, b.validators))
  }

  /** What the construction check asks for: the producer's and the validators' part of it. */
  ghost predicate Constructed(p: Primitives, b: Block) {
    && (match b.reward
        case Genesis(_, _, outputs) => outputs != []
        case Staker(_, stakerOutputs, _) => stakerOutputs != [])
    && (forall i :: 0 <= i < |b.validators| ==> b.validators[i].validator != b.producerKey)
    && p.checkSignature(p.sha3(ProducerBytes(b)), b.producerKey, b.producerSignature)
    && b.validators != []
  }

  /** And that every validator has signed the producer's bytes, key and signature. */
  ghost predicate Endorsed(p: Primitives, b: Block) {
    var signed := ProducerBytes(b) + (EncodeBool(true) + (b.producerKey + b.producerSignature));
    forall i :: 0 <= i < |b.validators| ==>
      p.checkSignature(p.sha3(signed), b.validators[i].validator, b.validators[i].signature)
  }

  /**
   The outcome of the construction check for every block: accepted exactly if the reward pays someone, no
   validator is the producer, the producer's signature checks, and someone has endorsed a block with a
   producer key and signature set, all of it correctly. With one of these two unset the check throws as
   soon as it comes to the endorsements.
   */
  lemma ConstructionIff(p: Primitives, b: Block)
    ensures ValidateConstruction(p, b) == Some(true) <==>
      Constructed(p, b) && b.producerKey != EMPTY_KEY && b.producerSignature != EMPTY_SIGNATURE && Endorsed(p, b)
    ensures ValidateConstruction(p, b) == None <==>
      Constructed(p, b) && (b.producerKey == EMPTY_KEY || b.producerSignature == EMPTY_SIGNATURE)
    ensures !p.checkSignature(p.sha3(ProducerBytes(b)), b.producerKey, b.producerSignature) ==>
      ValidateConstruction(p, b) == Some(false)
  {
    hide ProducerBytes;
    hide EncodeBool;
  }

  /** What is signed first is a prefix of what is signed next, and both of what is hashed. */
  lemma DigestPrefixes(b: Block)
    requires b.HasProducer()
    ensures Serialize(b, PRODUCER).value <= Serialize(b, VALIDATOR).value <= Serialize(b, FULL).value
    ensures Serialize(b, FULL).value ==
      Serialize(b, VALIDATOR).value + EncodeList(EncodeEndorsement, b.validators)
  {
  }

  /** Endorsements change neither of the two digests that are signed. */
  lemma EndorsementsKeepDigests(p: Primitives, b: Block, m: seq<Endorsement>)
    ensures Digest(p, b.(validators := m), PRODUCER) == Digest(p, b, PRODUCER)
    ensures Digest(p, b.(validators := m), VALIDATOR) == Digest(p, b, VALIDATOR)
  {
  }

  /** The endorsements `signings` produce over one digest. */
  function Endorsements(p: Primitives, digest: Key, signings: seq<Signing>): (es: seq<Endorsement>)
    ensures |es| == |signings|
    ensures forall i :: 0 <= i < |es| ==>
      es[i] == Endorsement(p.publicKey(signings[i].0), p.sign(digest, signings[i].0, signings[i].1))
  {
    seq(|signings|, i requires 0 <= i < |signings| =>
      Endorsement(p.publicKey(signings[i].0), p.sign(digest, signings[i].0, signings[i].1)))
  }

  /** Every validator signs the same digest, so a run of signings is a run of insertions. */
  lemma {:induction false} SignAllInserts(p: Primitives, b: Block, signings: seq<Signing>)
    requires b.HasProducer()
    ensures SignAll(p, b, signings) == Some(b.(validators :=
      InsertAll(Signer, b.validators, Endorsements(p, Digest(p, b, VALIDATOR).value, signings))))
    decreases |signings|
  {
    if signings != [] {
      var digest := Digest(p, b, VALIDATOR).value;
      var b1 := ValidatorSign(p, b, signings[0].0, signings[0].1).value;
      EndorsementsKeepDigests(p, b, b1.validators);
      SignAllInserts(p, b1, signings[1..]);
      assert Endorsements(p, digest, signings)[1..] == Endorsements(p, digest, signings[1..]);
    }
  }

  /** Merging endorsements that check adds their signers and decides nothing about the others. */
  lemma MergedEndorsements(p: Primitives, digest: Key, m: seq<Endorsement>, es: seq<Endorsement>, k: Key)
    requires Sorted(Signer, m) && AllCheck(p, digest, es)
    ensures AllCheck(p, digest, InsertAll(Signer, m, es)) <==> AllCheck(p, digest, m)
    ensures Endorses(InsertAll(Signer, m, es), k) <==> Endorses(m, k) || Endorses(es, k)
    ensures InsertAll(Signer, m, es) == [] <==> m == [] && es == []
  {
    var r := InsertAll(Signer, m, es);
    InsertAllKeys(Signer, m, es);
    assert forall i :: 0 <= i < |m| ==> m[i] in r;
    forall i | 0 <= i < |r| ensures r[i] in m || r[i] in es {
      assert r[i] in r;
    }
    assert forall i :: 0 <= i < |es| ==> HasKey(Signer, r, Signer(es[i]));
  }

  /** The endorsement part of the theorem below, for a block whose producer signature is in order. */
  lemma EndorseThenValidate(p: Primitives, b: Block, signings: seq<Signing>)
    requires SignaturesCheck(p) && Sorted(Signer, b.validators) && b.HasProducer()
    requires p.checkSignature(p.sha3(ProducerBytes(b)), b.producerKey, b.producerSignature)
    ensures SignAll(p, b, signings).Some?
    ensures ValidateConstruction(p, SignAll(p, b, signings).value) == Some(
              && RewardPaysSomeone(b.reward)
              && (b.validators != [] || signings != [])
              && !b.HasValidator(b.producerKey)
              && !SignedBy(p, signings, b.producerKey)
              && AllCheck(p, Digest(p, b, VALIDATOR).value, b.validators))
  {
    hide SignAll;
    hide ValidateConstruction;
    hide ProducerBytes;
    hide InsertAll;
    hide ProducerSection;
    hide RewardPaysSomeone;
    var es := Endorsements(p, Digest(p, b, VALIDATOR).value, signings);
    SignAllInserts(p, b, signings);
    MergedEndorsements(p, Digest(p, b, VALIDATOR).value, b.validators, es, b.producerKey);
    ValidateSigned(p, b, InsertAll(Signer, b.validators, es));
    assert Endorses(es, b.producerKey) <==> SignedBy(p, signings, b.producerKey);
  }

  predicate SignedBy(p: Primitives, signings: seq<Signing>, k: Key) {
    exists i | 0 <= i < |signings| :: p.publicKey(signings[i].0) == k
  }

  /**
   A block signed by its producer and then by any validators, in any order and with repeats, passes
   the construction check exactly when its reward pays someone, someone endorsed it, no endorser is
   the producer, and endorsements it already carried check as well.
   */
  lemma SignThenValidate(p: Primitives, b: Block, producer: Signing, signings: seq<Signing>) returns (signed: Block)
    requires SignaturesCheck(p) && Sorted(Signer, b.validators)
    ensures SignAll(p, ProducerSign(p, b, producer.0, producer.1), signings) == Some(signed)
    ensures Digest(p, ProducerSign(p, b, producer.0, producer.1), VALIDATOR).Some?
    ensures ValidateConstruction(p, signed) == Some(
              && RewardPaysSomeone(b.reward)
              && (b.validators != [] || signings != [])
              && !b.HasValidator(p.publicKey(producer.0))
              && !SignedBy(p, signings, p.publicKey(producer.0))
              && AllCheck(p, Digest(p, ProducerSign(p, b, producer.0, producer.1), VALIDATOR).value, b.validators))
  {
    var b1 := ProducerSigned(p, b, producer);
    EndorseThenValidate(p, b1, signings);
    signed := SignAll(p, b1, signings).value;
  }

  lemma ProducerSigned(p: Primitives, b: Block, producer: Signing) returns (b1: Block)
    requires SignaturesCheck(p)
    ensures b1 == ProducerSign(p, b, producer.0, producer.1)
    ensures b1.HasProducer() && Digest(p, b1, VALIDATOR).Some?
    ensures p.checkSignature(p.sha3(ProducerBytes(b1)), b1.producerKey, b1.producerSignature)
  {
    b1 := ProducerSign(p, b, producer.0, producer.1);
    assert ProducerBytes(b1) == ProducerBytes(b);
  }

  /** The construction check of a block whose producer signature is in order. */
  lemma ValidateSigned(p: Primitives, b: Block, m: seq<Endorsement>)
    requires b.HasProducer()
    requires p.checkSignature(p.sha3(ProducerBytes(b)), b.producerKey, b.producerSignature)
    ensures ValidateConstruction(p, b.(validators := m)) == Some(
      && RewardPaysSomeone(b.reward)
      && m != []
      && !Endorses(m, b.producerKey)
      && AllCheck(p, Digest(p, b, VALIDATOR).value, m))
  {
    EndorsementsKeepDigests(p, b, m);
    assert ProducerBytes(b.(validators := m)) == ProducerBytes(b);
  }

  /** A signed block survives the wire: whoever receives it reads back what was signed. */
  lemma SignedBlockRoundTrip(p: Primitives, b: Block, producer: Signing, signings: seq<Signing>, rest: Data)
    requires SignaturesCheck(p) && b.Ordered() && b.reward.Tagged()
    ensures SignAll(p, ProducerSign(p, b, producer.0, producer.1), signings).Some?
    ensures
      var signed := SignAll(p, ProducerSign(p, b, producer.0, producer.1), signings).value;
      signed.HasProducer() && Decode(FullBytes(signed) + rest) == Some((signed, rest))
  {
    hide SignAll;
    hide Decode;
    hide FullBytes;
    hide ProducerBytes;
    hide Digest;
    var b1 := ProducerSigned(p, b, producer);
    SignAllInserts(p, b1, signings);
    var es := Endorsements(p, Digest(p, b1, VALIDATOR).value, signings);
    InsertAllSorted(Signer, b.validators, es);
    BlockRoundTrip(SignAll(p, b1, signings).value, rest);
  }

  /** Signing never touches anything but the endorsements, so they alone decide the final hash. */
  lemma FinalHashFromEndorsements(p: Primitives, b: Block, first: seq<Signing>, second: seq<Signing>)
    requires b.HasProducer()
    requires SignAll(p, b, first).Some? && SignAll(p, b, second).Some?
    requires SignAll(p, b, first).value.validators == SignAll(p, b, second).value.validators
    ensures Hash(p, SignAll(p, b, first).value) == Hash(p, SignAll(p, b, second).value)
  {
    SignAllInserts(p, b, first);
    SignAllInserts(p, b, second);
  }

  /** Validators who each sign once reach the same block in whatever order they sign. */
  lemma SigningOrderIrrelevant(p: Primitives, b: Block, first: seq<Signing>, second: seq<Signing>)
    requires b.HasProducer() && Sorted(Signer, b.validators)
    requires forall g :: g in first <==> g in second
    requires forall i, j | 0 <= i < |first| && 0 <= j < |first| ::
      p.publicKey(first[i].0) == p.publicKey(first[j].0) ==> first[i] == first[j]
    ensures SignAll(p, b, first) == SignAll(p, b, second)
  {
    hide SignAll;
    hide ProducerBytes;
    hide ProducerSection;
    var digest := Digest(p, b, VALIDATOR).value;
    SignAllInserts(p, b, first);
    SignAllInserts(p, b, second);
    SameEndorsements(p, digest, first, second);
    SameEndorsements(p, digest, second, first);
    forall j | 0 <= j < |second| ensures second[j] in first {
      assert second[j] in second;
    }
    SameMerge(b.validators, Endorsements(p, digest, first), Endorsements(p, digest, second));
  }

  lemma SameMerge(m: seq<Endorsement>, es: seq<Endorsement>, fs: seq<Endorsement>)
    requires Sorted(Signer, m) && Functional(Signer, es) && Functional(Signer, fs)
    requires forall e :: e in es <==> e in fs
    ensures InsertAll(Signer, m, es) == InsertAll(Signer, m, fs)
  {
    InsertAllMembers(Signer, m, es);
    InsertAllMembers(Signer, m, fs);
    InsertAllSorted(Signer, m, es);
    InsertAllSorted(Signer, m, fs);
    SortedUnique(Signer, InsertAll(Signer, m, es), InsertAll(Signer, m, fs));
  }

  lemma SameEndorsements(p: Primitives, digest: Key, first: seq<Signing>, second: seq<Signing>)
    requires forall g :: g in first ==> g in second
    ensures forall e :: e in Endorsements(p, digest, first) ==> e in Endorsements(p, digest, second)
  {
    var es, fs := Endorsements(p, digest, first), Endorsements(p, digest, second);
    forall e | e in es ensures e in fs {
      var i :| 0 <= i < |es| && es[i] == e;
      assert first[i] in second;
      var j :| 0 <= j < |second| && second[j] == first[i];
      assert fs[j] == e;
    }
  }
}
