/**
 Transactions as they are stored in blocks: their fields, their byte encodings and their hashes.
 The three committed user transactions differ only in the data between body and suffix.
 */
module Transactions {
  import opened Bytes
  import opened Crypto

  const GENESIS: uint64 := 0
  const STAKER: uint64 := 1
  const NORMAL: uint64 := 2
  const STAKE: uint64 := 3
  const RECALL_STAKE: uint64 := 4
  const STAKE_REFUND: uint64 := 5

  datatype Header = Header(txType: uint64, version: uint64)
  datatype Prefix = Prefix(header: Header, unlockBlock: uint64, publicKey: Key)
  datatype StakerOutput = StakerOutput(stakerId: Key, amount: uint64)
  datatype Output = Output(publicEphemeral: Key, amount: uint64, commitment: Key)
  datatype Body = Body(nonce: uint64, fee: uint64, keyImages: seq<Key>, outputs: seq<Output>)
  datatype Suffix = Suffix(signatureHash: Key, rangeProofHash: Key)

  datatype UserData =
    | NormalData(extra: Data)
    | StakeData(stakeAmount: uint64, candidate: Key, viewKey: Key, spendKey: Key)
    | RecallData(recallAmount: uint64, recallCandidate: Key, stakerId: Key,
                 viewSignature: Signature, spendSignature: Signature)

  datatype Transaction =
    | Genesis(prefix: Prefix, secretKey: Key, outputs: seq<Output>)
    | Staker(header: Header, stakerOutputs: seq<StakerOutput>, penalties: seq<StakerOutput>)
    | User(prefix: Prefix, body: Body, data: UserData, suffix: Suffix)
    | StakeRefund(prefix: Prefix, secretKey: Key, recallStakeTx: Key, outputs: seq<Output>)
  {
    function Head(): Header {
      if Staker? then header else prefix.header
    }

    /** The type tag the constructor of the variant sets. */
    function Tag(): uint64 {
      match this
      case Genesis(_, _, _) => GENESIS
      case Staker(_, _, _) => STAKER
      case User(_, _, data, _) => DataTag(data)
      case StakeRefund(_, _, _, _) => STAKE_REFUND
    }

    predicate Tagged() {
      Head().txType == Tag()
    }

    /** Outputs that enter the output table. */
    function NewOutputs(): seq<Output> {
      match this
      case User(_, body, _, _) => body.outputs
      case Staker(_, _, _) => []
      case Genesis(_, _, outputs) => outputs
      case StakeRefund(_, _, _, outputs) => outputs
    }

    function UnlockBlock(): uint64 {
      if Staker? then 0 else prefix.unlockBlock
    }

    /** Key images that enter the key image table. */
    function KeyImages(): seq<Key> {
      if User? then body.keyImages else []
    }
  }

  function DataTag(d: UserData): uint64 {
    match d
    case NormalData(_) => NORMAL
    case StakeData(_, _, _, _) => STAKE
    case RecallData(_, _, _, _, _) => RECALL_STAKE
  }

  // ---------------------------------------------------------------- pieces

  function EncodeHeader(h: Header): (r: Data)
    ensures |r| > 0
  {
    EncodeVarint(h.txType) + EncodeVarint(h.version)
  }

  function DecodeHeader(s: Data): Parsed<Header> {
    var (txType, s1) :- DecodeUint64(s);
    var (version, s2) :- DecodeUint64(s1);
    Some((Header(txType, version), s2))
  }

  lemma HeaderRoundTrip(h: Header, rest: Data)
    ensures DecodeHeader(EncodeHeader(h) + rest) == Some((h, rest))
    ensures DecodeUint64(EncodeHeader(h) + rest) == Some((h.txType, EncodeVarint(h.version) + rest))
  {
    assert EncodeHeader(h) + rest == EncodeVarint(h.txType) + (EncodeVarint(h.version) + rest);
    Uint64RoundTrip(h.txType, EncodeVarint(h.version) + rest);
    Uint64RoundTrip(h.version, rest);
  }

  function EncodePrefix(p: Prefix): (r: Data) {
    EncodeHeader(p.header) + (EncodeVarint(p.unlockBlock) + p.publicKey)
  }

  function DecodePrefix(s: Data): Parsed<Prefix> {
    var (h, s1) :- DecodeHeader(s);
    var (unlockBlock, s2) :- DecodeUint64(s1);
    var (publicKey, s3) :- DecodeKey(s2);
    Some((Prefix(h, unlockBlock, publicKey), s3))
  }

  lemma PrefixRoundTrip(p: Prefix, rest: Data)
    ensures DecodePrefix(EncodePrefix(p) + rest) == Some((p, rest))
  {
    var s2 := p.publicKey + rest;
    var s1 := EncodeVarint(p.unlockBlock) + s2;
    assert EncodePrefix(p) + rest == EncodeHeader(p.header) + s1;
    HeaderRoundTrip(p.header, s1);
    Uint64RoundTrip(p.unlockBlock, s2);
    KeyRoundTrip(p.publicKey, rest);
  }

  function EncodeStakerOutput(o: StakerOutput): Data {
    o.stakerId + EncodeVarint(o.amount)
  }

  function DecodeStakerOutput(s: Data): Parsed<StakerOutput> {
    var (stakerId, s1) :- DecodeKey(s);
    var (amount, s2) :- DecodeUint64(s1);
    Some((StakerOutput(stakerId, amount), s2))
  }

  lemma StakerOutputRoundTrip()
    ensures Inverse(EncodeStakerOutput, DecodeStakerOutput)
  {
    forall o: StakerOutput, rest: Data
      ensures DecodeStakerOutput(EncodeStakerOutput(o) + rest) == Some((o, rest))
    {
      assert EncodeStakerOutput(o) + rest == o.stakerId + (EncodeVarint(o.amount) + rest);
      KeyRoundTrip(o.stakerId, EncodeVarint(o.amount) + rest);
      Uint64RoundTrip(o.amount, rest);
    }
  }

  function EncodeOutput(o: Output): Data {
    o.publicEphemeral + (EncodeVarint(o.amount) + o.commitment)
  }

  function DecodeOutput(s: Data): Parsed<Output> {
    var (publicEphemeral, s1) :- DecodeKey(s);
    var (amount, s2) :- DecodeUint64(s1);
    var (commitment, s3) :- DecodeKey(s2);
    Some((Output(publicEphemeral, amount, commitment), s3))
  }

  lemma OutputRoundTrip(o: Output, rest: Data)
    ensures DecodeOutput(EncodeOutput(o) + rest) == Some((o, rest))
  {
    var s2 := o.commitment + rest;
    assert EncodeOutput(o) + rest == o.publicEphemeral + (EncodeVarint(o.amount) + s2);
    KeyRoundTrip(o.publicEphemeral, EncodeVarint(o.amount) + s2);
    Uint64RoundTrip(o.amount, s2);
    KeyRoundTrip(o.commitment, rest);
  }

  lemma OutputsInverse()
    ensures Inverse(EncodeOutput, DecodeOutput)
  {
    forall o: Output, rest: Data ensures DecodeOutput(EncodeOutput(o) + rest) == Some((o, rest)) {
      OutputRoundTrip(o, rest);
    }
  }

  function EncodeKey(k: Key): Data {
    k
  }

  lemma KeysInverse()
    ensures Inverse(EncodeKey, DecodeKey)
  {
    forall k: Key, rest: Data ensures DecodeKey(EncodeKey(k) + rest) == Some((k, rest)) {
      KeyRoundTrip(k, rest);
    }
  }

  function EncodeBody(b: Body): Data {
    EncodeVarint(b.nonce) + (EncodeVarint(b.fee) +
    (EncodeList(EncodeKey, b.keyImages) + EncodeList(EncodeOutput, b.outputs)))
  }

  function DecodeBody(s: Data): Parsed<Body> {
    var (nonce, s1) :- DecodeUint64(s);
    var (fee, s2) :- DecodeUint64(s1);
    var (keyImages, s3) :- DecodeList(DecodeKey, s2);
    var (outputs, s4) :- DecodeList(DecodeOutput, s3);
    Some((Body(nonce, fee, keyImages, outputs), s4))
  }

  lemma BodyRoundTrip(b: Body, rest: Data)
    ensures DecodeBody(EncodeBody(b) + rest) == Some((b, rest))
  {
    var s3 := EncodeList(EncodeOutput, b.outputs) + rest;
    var s2 := EncodeList(EncodeKey, b.keyImages) + s3;
    var s1 := EncodeVarint(b.fee) + s2;
    assert EncodeBody(b) + rest == EncodeVarint(b.nonce) + s1;
    Uint64RoundTrip(b.nonce, s1);
    Uint64RoundTrip(b.fee, s2);
    KeysInverse();
    ListRoundTrip(EncodeKey, DecodeKey, b.keyImages, s3);
    OutputsInverse();
    ListRoundTrip(EncodeOutput, DecodeOutput, b.outputs, rest);
  }

  function EncodeExtra(extra: Data): Data {
    EncodeVarint(|extra|) + extra
  }

  function DecodeExtra(s: Data): Parsed<Data> {
    var (n, s1) :- DecodeVarint(s);
    if |s1| < n then None else Some((s1[..n], s1[n..]))
  }

  lemma ExtraRoundTrip(extra: Data, rest: Data)
    ensures DecodeExtra(EncodeExtra(extra) + rest) == Some((extra, rest))
  {
    assert EncodeExtra(extra) + rest == EncodeVarint(|extra|) + (extra + rest);
    VarintRoundTrip(|extra|, extra + rest);
    assert (extra + rest)[..|extra|] == extra && (extra + rest)[|extra|..] == rest;
  }

  function EncodeData(d: UserData): Data {
    match d
    case NormalData(extra) => EncodeExtra(extra)
    case StakeData(amount, candidate, viewKey, spendKey) =>
      EncodeVarint(amount) + (candidate + (viewKey + spendKey))
    case RecallData(amount, candidate, stakerId, viewSignature, spendSignature) =>
      EncodeVarint(amount) + (candidate + (stakerId + (viewSignature + spendSignature)))
  }

  /** The tag read from the header decides which fields follow the body. */
  function DecodeData(tag: uint64, s: Data): Parsed<UserData> {
    if tag == NORMAL then
      var (extra, s1) :- DecodeExtra(s);
      Some((NormalData(extra), s1))
    else if tag == STAKE then
      var (amount, s1) :- DecodeUint64(s);
      var (candidate, s2) :- DecodeKey(s1);
      var (viewKey, s3) :- DecodeKey(s2);
      var (spendKey, s4) :- DecodeKey(s3);
      Some((StakeData(amount, candidate, viewKey, spendKey), s4))
    else
      var (amount, s1) :- DecodeUint64(s);
      var (candidate, s2) :- DecodeKey(s1);
      var (stakerId, s3) :- DecodeKey(s2);
      var (viewSignature, s4) :- DecodeSignature(s3);
      var (spendSignature, s5) :- DecodeSignature(s4);
      Some((RecallData(amount, candidate, stakerId, viewSignature, spendSignature), s5))
  }

  lemma StakeDataRoundTrip(d: UserData, rest: Data)
    requires d.StakeData?
    ensures DecodeData(STAKE, EncodeData(d) + rest) == Some((d, rest))
  {
    var s3 := d.spendKey + rest;
    var s2 := d.viewKey + s3;
    var s1 := d.candidate + s2;
    assert EncodeData(d) + rest == EncodeVarint(d.stakeAmount) + s1;
    Uint64RoundTrip(d.stakeAmount, s1);
    KeyRoundTrip(d.candidate, s2);
    KeyRoundTrip(d.viewKey, s3);
    KeyRoundTrip(d.spendKey, rest);
  }

  lemma RecallDataRoundTrip(d: UserData, rest: Data)
    requires d.RecallData?
    ensures DecodeData(RECALL_STAKE, EncodeData(d) + rest) == Some((d, rest))
  {
    var s4 := d.spendSignature + rest;
    var s3 := d.viewSignature + s4;
    var s2 := d.stakerId + s3;
    var s1 := d.recallCandidate + s2;
    assert EncodeData(d) + rest == EncodeVarint(d.recallAmount) + s1;
    Uint64RoundTrip(d.recallAmount, s1);
    KeyRoundTrip(d.recallCandidate, s2);
    KeyRoundTrip(d.stakerId, s3);
    SignatureRoundTrip(d.viewSignature, s4);
    SignatureRoundTrip(d.spendSignature, rest);
  }

  lemma DataRoundTrip(d: UserData, rest: Data)
    ensures DecodeData(DataTag(d), EncodeData(d) + rest) == Some((d, rest))
  {
    match d
    case NormalData(extra) => ExtraRoundTrip(extra, rest);
    case StakeData(_, _, _, _) => StakeDataRoundTrip(d, rest);
    case RecallData(_, _, _, _, _) => RecallDataRoundTrip(d, rest);
  }

  function EncodeSuffix(x: Suffix): (r: Data)
    ensures |r| == 64
  {
    x.signatureHash + x.rangeProofHash
  }

  function DecodeSuffix(s: Data): Parsed<Suffix> {
    var (signatureHash, s1) :- DecodeKey(s);
    var (rangeProofHash, s2) :- DecodeKey(s1);
    Some((Suffix(signatureHash, rangeProofHash), s2))
  }

  lemma SuffixRoundTrip(x: Suffix, rest: Data)
    ensures DecodeSuffix(EncodeSuffix(x) + rest) == Some((x, rest))
  {
    assert EncodeSuffix(x) + rest == x.signatureHash + (x.rangeProofHash + rest);
    KeyRoundTrip(x.signatureHash, x.rangeProofHash + rest);
    KeyRoundTrip(x.rangeProofHash, rest);
  }

  // ---------------------------------------------------------------- whole transactions

  /** `serialize_digest`: everything a user transaction signs over. */
  function EncodeDigest(prefix: Prefix, body: Body, data: UserData): Data {
    EncodePrefix(prefix) + (EncodeBody(body) + EncodeData(data))
  }

  function Encode(tx: Transaction): Data {
    match tx
    case Genesis(prefix, secretKey, outputs) =>
      EncodePrefix(prefix) + (secretKey + EncodeList(EncodeOutput, outputs))
    case Staker(header, stakerOutputs, penalties) =>
      EncodeHeader(header) + (EncodeList(EncodeStakerOutput, stakerOutputs) + EncodeList(EncodeStakerOutput, penalties))
    case User(prefix, body, data, suffix) =>
      EncodeDigest(prefix, body, data) + EncodeSuffix(suffix)
    case StakeRefund(prefix, secretKey, recallStakeTx, outputs) =>
      EncodePrefix(prefix) + (secretKey + (recallStakeTx + EncodeList(EncodeOutput, outputs)))
  }

  function DecodeGenesis(s: Data): Parsed<Transaction> {
    var (prefix, s1) :- DecodePrefix(s);
    var (secretKey, s2) :- DecodeKey(s1);
    var (outputs, s3) :- DecodeList(DecodeOutput, s2);
    Some((Genesis(prefix, secretKey, outputs), s3))
  }

  function DecodeStaker(s: Data): Parsed<Transaction> {
    var (header, s1) :- DecodeHeader(s);
    var (stakerOutputs, s2) :- DecodeList(DecodeStakerOutput, s1);
    var (penalties, s3) :- DecodeList(DecodeStakerOutput, s2);
    Some((Staker(header, stakerOutputs, penalties), s3))
  }

  function DecodeUser(tag: uint64, s: Data): Parsed<Transaction> {
    var (prefix, s1) :- DecodePrefix(s);
    var (body, s2) :- DecodeBody(s1);
    var (data, s3) :- DecodeData(tag, s2);
    var (suffix, s4) :- DecodeSuffix(s3);
    Some((User(prefix, body, data, suffix), s4))
  }

  function DecodeStakeRefund(s: Data): Parsed<Transaction> {
    var (prefix, s1) :- DecodePrefix(s);
    var (secretKey, s2) :- DecodeKey(s1);
    var (recallStakeTx, s3) :- DecodeKey(s2);
    var (outputs, s4) :- DecodeList(DecodeOutput, s3);
    Some((StakeRefund(prefix, secretKey, recallStakeTx, outputs), s4))
  }

  /** Peek at the type tag, then read the variant it names. */
  function Decode(s: Data): Parsed<Transaction> {
    var (tag, _) :- DecodeUint64(s);
    if tag == GENESIS then DecodeGenesis(s)
    else if tag == STAKER then DecodeStaker(s)
    else if tag == NORMAL || tag == STAKE || tag == RECALL_STAKE then DecodeUser(tag, s)
    else if tag == STAKE_REFUND then DecodeStakeRefund(s)
    else None
  }

  /** Every encoding starts with the header. */
  lemma StartsWithHeader(tx: Transaction) returns (tail: Data)
    ensures Encode(tx) == EncodeHeader(tx.Head()) + tail
  {
    match tx
    case Genesis(prefix, secretKey, outputs) =>
      tail := PrefixTail(prefix, secretKey + EncodeList(EncodeOutput, outputs));
    case Staker(_, stakerOutputs, penalties) =>
      tail := EncodeList(EncodeStakerOutput, stakerOutputs) + EncodeList(EncodeStakerOutput, penalties);
    case User(prefix, body, data, suffix) =>
      var x := EncodeBody(body) + EncodeData(data);
      assert Encode(tx) == EncodePrefix(prefix) + (x + EncodeSuffix(suffix));
      tail := PrefixTail(prefix, x + EncodeSuffix(suffix));
    case StakeRefund(prefix, secretKey, recallStakeTx, outputs) =>
      tail := PrefixTail(prefix, secretKey + (recallStakeTx + EncodeList(EncodeOutput, outputs)));
  }

  lemma PrefixTail(p: Prefix, more: Data) returns (tail: Data)
    ensures EncodePrefix(p) + more == EncodeHeader(p.header) + tail
  {
    tail := (EncodeVarint(p.unlockBlock) + p.publicKey) + more;
  }

  lemma PeekTag(tx: Transaction, rest: Data)
    ensures DecodeUint64(Encode(tx) + rest).Some?
    ensures DecodeUint64(Encode(tx) + rest).value.0 == tx.Head().txType
  {
    var tail := StartsWithHeader(tx);
    Assoc(EncodeHeader(tx.Head()), tail, rest);
    HeaderRoundTrip(tx.Head(), tail + rest);
  }

  /** The variant read is the one the peeked tag names. */
  lemma DecodedVariant(s: Data)
    requires Decode(s).Some?
    ensures Decode(s).value.0.Tag() == DecodeUint64(s).value.0
    ensures DecodeUint64(s).value.0 ==
      match Decode(s).value.0
      case Genesis(_, _, _) => 0
      case Staker(_, _, _) => 1
      case User(_, _, NormalData(_), _) => 2
      case User(_, _, StakeData(_, _, _, _), _) => 3
      case User(_, _, RecallData(_, _, _, _, _), _) => 4
      case StakeRefund(_, _, _, _) => 5
  {
    var tag := DecodeUint64(s).value.0;
    if tag == NORMAL || tag == STAKE || tag == RECALL_STAKE {
      DecodedUserData(tag, s);
    }
  }

  lemma DecodedUserData(tag: uint64, s: Data)
    requires tag == NORMAL || tag == STAKE || tag == RECALL_STAKE
    requires DecodeUser(tag, s).Some?
    ensures DecodeUser(tag, s).value.0.Tag() == tag
  {
  }

  lemma GenesisRoundTrip(tx: Transaction, rest: Data)
    requires tx.Genesis?
    ensures DecodeGenesis(Encode(tx) + rest) == Some((tx, rest))
  {
    var s2 := EncodeList(EncodeOutput, tx.outputs) + rest;
    assert Encode(tx) + rest == EncodePrefix(tx.prefix) + (tx.secretKey + s2);
    PrefixRoundTrip(tx.prefix, tx.secretKey + s2);
    KeyRoundTrip(tx.secretKey, s2);
    OutputsInverse();
    ListRoundTrip(EncodeOutput, DecodeOutput, tx.outputs, rest);
  }

  lemma StakerRoundTrip(tx: Transaction, rest: Data)
    requires tx.Staker?
    ensures DecodeStaker(Encode(tx) + rest) == Some((tx, rest))
  {
    var s2 := EncodeList(EncodeStakerOutput, tx.penalties) + rest;
    var s1 := EncodeList(EncodeStakerOutput, tx.stakerOutputs) + s2;
    assert Encode(tx) + rest == EncodeHeader(tx.header) + s1;
    HeaderRoundTrip(tx.header, s1);
    StakerOutputRoundTrip();
    ListRoundTrip(EncodeStakerOutput, DecodeStakerOutput, tx.stakerOutputs, s2);
    ListRoundTrip(EncodeStakerOutput, DecodeStakerOutput, tx.penalties, rest);
  }

  lemma UserRoundTrip(tx: Transaction, rest: Data)
    requires tx.User?
    ensures DecodeUser(tx.Tag(), Encode(tx) + rest) == Some((tx, rest))
  {
    hide EncodePrefix;
    hide DecodePrefix;
    hide EncodeBody;
    hide DecodeBody;
    hide EncodeData;
    hide DecodeData;
    hide EncodeSuffix;
    hide DecodeSuffix;
    var s3 := EncodeSuffix(tx.suffix) + rest;
    var s2 := EncodeData(tx.data) + s3;
    var s1 := EncodeBody(tx.body) + s2;
    assert Encode(tx) + rest == EncodePrefix(tx.prefix) + s1;
    PrefixRoundTrip(tx.prefix, s1);
    BodyRoundTrip(tx.body, s2);
    DataRoundTrip(tx.data, s3);
    SuffixRoundTrip(tx.suffix, rest);
  }

  lemma StakeRefundRoundTrip(tx: Transaction, rest: Data)
    requires tx.StakeRefund?
    ensures DecodeStakeRefund(Encode(tx) + rest) == Some((tx, rest))
  {
    var s3 := EncodeList(EncodeOutput, tx.outputs) + rest;
    var s2 := tx.recallStakeTx + s3;
    assert Encode(tx) + rest == EncodePrefix(tx.prefix) + (tx.secretKey + s2);
    PrefixRoundTrip(tx.prefix, tx.secretKey + s2);
    KeyRoundTrip(tx.secretKey, s2);
    KeyRoundTrip(tx.recallStakeTx, s3);
    OutputsInverse();
    ListRoundTrip(EncodeOutput, DecodeOutput, tx.outputs, rest);
  }

  /** Reading back is exact precisely for transactions carrying the tag of their variant. */
  lemma TransactionRoundTrip(tx: Transaction, rest: Data)
    ensures Decode(Encode(tx) + rest) == Some((tx, rest)) <==> tx.Tagged()
  {
    PeekTag(tx, rest);
    if Decode(Encode(tx) + rest).Some? {
      DecodedVariant(Encode(tx) + rest);
    }
    match tx
    case Genesis(_, _, _) => GenesisRoundTrip(tx, rest);
    case Staker(_, _, _) => StakerRoundTrip(tx, rest);
    case User(_, _, _, _) => UserRoundTrip(tx, rest);
    case StakeRefund(_, _, _, _) => StakeRefundRoundTrip(tx, rest);
  }

  // ---------------------------------------------------------------- hashes

  function OutputHash(p: Primitives, o: Output): Key {
    p.sha3(EncodeOutput(o))
  }

  function UserHash(p: Primitives, digestBytes: Data, suffix: Suffix): Key {
    p.sha3(p.sha3(digestBytes) + (suffix.signatureHash + suffix.rangeProofHash))
  }

  function Hash(p: Primitives, tx: Transaction): Key {
    if tx.User? then UserHash(p, EncodeDigest(tx.prefix, tx.body, tx.data), tx.suffix)
    else p.sha3(Encode(tx))
  }

  /** Both digests and both suffix hashes enter the hash at fixed places. */
  lemma UserPreimages(a: Key, b: Key, x: Suffix, y: Suffix)
    requires a + (x.signatureHash + x.rangeProofHash) == b + (y.signatureHash + y.rangeProofHash)
    ensures a == b && x == y
  {
    KeyRoundTrip(a, x.signatureHash + x.rangeProofHash);
    KeyRoundTrip(b, y.signatureHash + y.rangeProofHash);
    KeyRoundTrip(x.signatureHash, x.rangeProofHash);
    KeyRoundTrip(y.signatureHash, y.rangeProofHash);
  }

  /**
   The hash of a transaction commits to every field of it: two different tagged transactions of one kind
   with the same hash give a collision of the hash function.
   */
  lemma HashCommits(p: Primitives, a: Transaction, b: Transaction) returns (x: Data, y: Data)
    requires a.Tagged() && b.Tagged() && a.User? == b.User? && a != b && Hash(p, a) == Hash(p, b)
    ensures x != y && p.sha3(x) == p.sha3(y)
  {
    hide Encode;
    hide Decode;
    hide EncodeDigest;
    TransactionRoundTrip(a, []);
    TransactionRoundTrip(b, []);
    x, y := Encode(a), Encode(b);
    if a.User? {
      var d, e := EncodeDigest(a.prefix, a.body, a.data), EncodeDigest(b.prefix, b.body, b.data);
      x := p.sha3(d) + (a.suffix.signatureHash + a.suffix.rangeProofHash);
      y := p.sha3(e) + (b.suffix.signatureHash + b.suffix.rangeProofHash);
      if x == y {
        UserPreimages(p.sha3(d), p.sha3(e), a.suffix, b.suffix);
        SameDigestSuffix(a, b);
        x, y := d, e;
      }
    }
  }

  lemma SameDigestSuffix(a: Transaction, b: Transaction)
    requires a.User? && b.User? && a.suffix == b.suffix
    ensures EncodeDigest(a.prefix, a.body, a.data) == EncodeDigest(b.prefix, b.body, b.data) ==> Encode(a) == Encode(b)
  {
    hide EncodeDigest;
  }
}
