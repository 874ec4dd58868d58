/**
 The block as the object the node works on: its fields are filled from a reader, appended to a writer,
 and signed in place. Every method is proved against the value-level functions of `Blocks`.
 */
module BlockObject {
  import opened Bytes
  import opened Crypto
  import opened Ordering
  import Tx = Transactions
  import B = Blocks

  // ---------------------------------------------------------------- readers and writers

  class Writer {
    var bytes: Data

    constructor ()
      ensures bytes == []
    {
      bytes := [];
    }

    method Append(d: Data)
      modifies this
      ensures bytes == old(bytes) + d
    {
      bytes := bytes + d;
    }

    /** A count followed by the elements, one by one. */
    method AppendCounted<T>(enc: T -> Data, xs: seq<T>)
      modifies this
      ensures bytes == old(bytes) + EncodeList(enc, xs)
    {
      Append(EncodeVarint(|xs|));
      for i := 0 to |xs|
        invariant bytes == old(bytes) + (EncodeVarint(|xs|) + EncodeAll(enc, xs[..i]))
      {
        EncodeAllSnoc(enc, xs[..i], xs[i]);
        assert xs[..i + 1] == xs[..i] + [xs[i]];
        Assoc(old(bytes), EncodeVarint(|xs|) + EncodeAll(enc, xs[..i]), enc(xs[i]));
        Assoc(EncodeVarint(|xs|), EncodeAll(enc, xs[..i]), enc(xs[i]));
        Append(enc(xs[i]));
      }
      assert xs[..|xs|] == xs;
    }
  }

  class Reader {
    var rest: Data

    constructor (bytes: Data)
      ensures rest == bytes
    {
      rest := bytes;
    }

    /** Reads one item; `None` is the exception thrown on malformed or missing bytes. */
    method Take<T>(dec: Data -> Parsed<T>) returns (r: Option<T>)
      modifies this
      ensures r.Some? <==> dec(old(rest)).Some?
      ensures r.Some? ==> dec(old(rest)) == Some((r.value, rest))
    {
      match dec(rest)
      case None =>
        r := None;
      case Some((x, s)) =>
        r := Some(x);
        rest := s;
    }

    /** Reads one item without moving. */
    method Peek<T>(dec: Data -> Parsed<T>) returns (r: Option<T>)
      ensures r.Some? <==> dec(rest).Some?
      ensures r.Some? ==> dec(rest).value.0 == r.value
    {
      match dec(rest)
      case None =>
        r := None;
      case Some((x, _)) =>
        r := Some(x);
    }

    /** A count, then that many items appended to a cleared vector. */
    method TakeCounted<T>(dec: Data -> Parsed<T>) returns (r: Option<seq<T>>)
      modifies this
      ensures r.Some? <==> DecodeList(dec, old(rest)).Some?
      ensures r.Some? ==> DecodeList(dec, old(rest)) == Some((r.value, rest))
    {
      var count := Take(DecodeVarint);
      if count.None? {
        return None;
      }
      ghost var start := rest;
      var xs: seq<T> := [];
      AfterNothing(DecodeAll(dec, count.value, start));
      for i := 0 to count.value
        invariant DecodeAll(dec, count.value, start) == After(xs, DecodeAll(dec, count.value - i, rest))
      {
        var x := Take(dec);
        if x.None? {
          return None;
        }
        AfterOne(xs, x.value, DecodeAll(dec, count.value - i - 1, rest));
        xs := xs + [x.value];
      }
      assert xs + [] == xs;
      r := Some(xs);
    }

    /** A count, then that many items inserted into a cleared ordered container. */
    method TakeOrdered<T>(dec: Data -> Parsed<T>, key: T -> Data) returns (r: Option<seq<T>>)
      modifies this
      ensures r.Some? <==> DecodeList(dec, old(rest)).Some?
      ensures r.Some? ==> exists xs ::
        DecodeList(dec, old(rest)) == Some((xs, rest)) && r.value == InsertAll(key, [], xs)
    {
      var count := Take(DecodeVarint);
      if count.None? {
        return None;
      }
      ghost var start := rest;
      ghost var xs: seq<T> := [];
      var m: seq<T> := [];
      AfterNothing(DecodeAll(dec, count.value, start));
      for i := 0 to count.value
        invariant DecodeAll(dec, count.value, start) == After(xs, DecodeAll(dec, count.value - i, rest))
        invariant m == InsertAll(key, [], xs)
      {
        var x := Take(dec);
        if x.None? {
          return None;
        }
        AfterOne(xs, x.value, DecodeAll(dec, count.value - i - 1, rest));
        InsertAllSnoc(key, [], xs, x.value);
        xs := xs + [x.value];
        m := Insert(key, m, x.value);
      }
      assert xs + [] == xs;
      r := Some(m);
    }
  }

  /** What has been read, then what is still to be read. */
  function After<T>(xs: seq<T>, more: Parsed<seq<T>>): Parsed<seq<T>> {
    var (ys, s) :- more;
    Some((xs + ys, s))
  }

  lemma AfterNothing<T>(more: Parsed<seq<T>>)
    ensures After([], more) == more
  {
    if more.Some? {
      assert [] + more.value.0 == more.value.0;
    }
  }

  lemma AfterOne<T>(xs: seq<T>, x: T, more: Parsed<seq<T>>)
    ensures After(xs, After([x], more)) == After(xs + [x], more)
  {
    if more.Some? {
      assert xs + ([x] + more.value.0) == (xs + [x]) + more.value.0;
    }
  }

  // ---------------------------------------------------------------- reward transactions

  method WriteReward(w: Writer, t: B.Reward)
    modifies w
    ensures w.bytes == old(w.bytes) + Tx.Encode(t)
  {
    hide Tx.EncodePrefix;
    hide Tx.EncodeHeader;
    hide EncodeList;
    match t
    case Genesis(prefix, secretKey, outputs) =>
      w.Append(Tx.EncodePrefix(prefix));
      w.Append(secretKey);
      w.AppendCounted(Tx.EncodeOutput, outputs);
      Assoc(Tx.EncodePrefix(prefix), secretKey, EncodeList(Tx.EncodeOutput, outputs));
      Assoc(old(w.bytes), Tx.EncodePrefix(prefix), secretKey);
      Assoc(old(w.bytes), Tx.EncodePrefix(prefix) + secretKey, EncodeList(Tx.EncodeOutput, outputs));
    case Staker(header, stakerOutputs, penalties) =>
      w.Append(Tx.EncodeHeader(header));
      w.AppendCounted(Tx.EncodeStakerOutput, stakerOutputs);
      w.AppendCounted(Tx.EncodeStakerOutput, penalties);
      var a, b, c := Tx.EncodeHeader(header), EncodeList(Tx.EncodeStakerOutput, stakerOutputs),
                     EncodeList(Tx.EncodeStakerOutput, penalties);
      Assoc(a, b, c);
      Assoc(old(w.bytes), a, b);
      Assoc(old(w.bytes), a + b, c);
  }

  method ReadStaker(r: Reader) returns (t: Option<Tx.Transaction>)
    modifies r
    ensures t.Some? <==> Tx.DecodeStaker(old(r.rest)).Some?
    ensures t.Some? ==> Tx.DecodeStaker(old(r.rest)) == Some((t.value, r.rest))
  {
    hide DecodeList;
    hide Tx.DecodeHeader;
    t := None;
    var header := r.Take(Tx.DecodeHeader);
    if header.None? {
      return;
    }
    var stakerOutputs := r.TakeCounted(Tx.DecodeStakerOutput);
    if stakerOutputs.None? {
      return;
    }
    var penalties := r.TakeCounted(Tx.DecodeStakerOutput);
    if penalties.None? {
      return;
    }
    t := Some(Tx.Staker(header.value, stakerOutputs.value, penalties.value));
  }

  method ReadGenesis(r: Reader) returns (t: Option<Tx.Transaction>)
    modifies r
    ensures t.Some? <==> Tx.DecodeGenesis(old(r.rest)).Some?
    ensures t.Some? ==> Tx.DecodeGenesis(old(r.rest)) == Some((t.value, r.rest))
  {
    hide DecodeList;
    hide Tx.DecodePrefix;
    t := None;
    var prefix := r.Take(Tx.DecodePrefix);
    if prefix.None? {
      return;
    }
    var secretKey := r.Take(DecodeKey);
    if secretKey.None? {
      return;
    }
    var outputs := r.TakeCounted(Tx.DecodeOutput);
    if outputs.None? {
      return;
    }
    t := Some(Tx.Genesis(prefix.value, secretKey.value, outputs.value));
  }

  /** The variant is chosen by the peeked type. */
  method ReadReward(r: Reader) returns (t: Option<B.Reward>)
    modifies r
    ensures t.Some? <==> B.DecodeReward(old(r.rest)).Some?
    ensures t.Some? ==> B.DecodeReward(old(r.rest)) == Some((t.value, r.rest))
  {
    hide Tx.DecodeGenesis;
    hide Tx.DecodeStaker;
    hide DecodeUint64;
    t := None;
    var tag := r.Peek(DecodeUint64);
    if tag == Some(Tx.GENESIS) {
      StakerOrGenesis(r.rest);
      var found := ReadGenesis(r);
      if found.Some? {
        t := Some(found.value);
      }
    } else if tag == Some(Tx.STAKER) {
      StakerOrGenesis(r.rest);
      var found := ReadStaker(r);
      if found.Some? {
        t := Some(found.value);
      }
    }
  }

  lemma StakerOrGenesis(s: Data)
    ensures Tx.DecodeGenesis(s).Some? ==> Tx.DecodeGenesis(s).value.0.Genesis?
    ensures Tx.DecodeStaker(s).Some? ==> Tx.DecodeStaker(s).value.0.Staker?
  {
  }

  // ---------------------------------------------------------------- deserialising into a used object

  /** The producer fields after reading: left as they were when the block carries none. */
  function ProducerAfter(present: bool, read: B.Endorsement, before: B.Block): B.Endorsement {
    if present then read else B.Endorsement(before.producerKey, before.producerSignature)
  }

  /** `deserialize` on an object that held `before`. */
  function DecodeOver(before: B.Block, s: Data): Parsed<B.Block> {
    var (b, rest) :- B.Decode(s);
    var present := CarriesProducer(s);
    var producer := ProducerAfter(present, B.Endorsement(b.producerKey, b.producerSignature), before);
    Some((b.(producerKey := producer.validator, producerSignature := producer.signature), rest))
  }

  datatype Fields = Fields(version: uint64, previousHash: Key, timestamp: uint64, index: uint64)

  function DecodeFields(s: Data): Parsed<Fields> {
    var (version, s1) :- DecodeUint64(s);
    var (previousHash, s2) :- DecodeKey(s1);
    var (timestamp, s3) :- DecodeUint64(s2);
    var (index, s4) :- DecodeUint64(s3);
    Some((Fields(version, previousHash, timestamp, index), s4))
  }

  /** Everything before the producer flag, as a block without producer and validators. */
  function DecodeFront(s: Data): Parsed<B.Block> {
    var (fields, s4) :- DecodeFields(s);
    var (reward, s5) :- B.DecodeReward(s4);
    var (hashes, s6) :- DecodeList(DecodeKey, s5);
    Some((B.Block(fields.version, fields.previousHash, fields.timestamp, fields.index, reward,
                  InsertAll(Tx.EncodeKey, [], hashes), EMPTY_KEY, EMPTY_SIGNATURE, []), s6))
  }

  /** The flag in front of the producer fields is set. */
  predicate CarriesProducer(s: Data) {
    match DecodeFront(s)
    case None => false
    case Some((_, s6)) => DecodeBool(s6).Some? && DecodeBool(s6).value.0
  }

  function FrontOf(b: B.Block): B.Block {
    b.(producerKey := EMPTY_KEY, producerSignature := EMPTY_SIGNATURE, validators := [])
  }

  /** Decoding continues after the front with the producer and the validators. */
  lemma DecodeSplit(s: Data)
    ensures DecodeFront(s).None? ==> B.Decode(s).None?
    ensures DecodeFront(s).Some? ==>
      var (front, s6) := DecodeFront(s).value;
      match B.DecodeProducer(s6)
      case None => B.Decode(s).None?
      case Some((producer, s7)) =>
        match DecodeList(B.DecodeEndorsement, s7)
        case None => B.Decode(s).None?
        case Some((es, s8)) =>
          B.Decode(s) == Some((front.(producerKey := producer.validator, producerSignature := producer.signature,
                                      validators := InsertAll(B.Signer, [], es)), s8))
  {
    hide DecodeUint64;
    hide DecodeKey;
    hide B.DecodeReward;
    hide DecodeList;
    hide InsertAll;
    hide B.DecodeProducer;
  }

  lemma FlagRoundTrip(b: B.Block, rest: Data)
    requires b.Ordered() && b.reward.Tagged()
    ensures CarriesProducer(B.FullBytes(b) + rest) == b.HasProducer()
  {
    hide Tx.Encode;
    hide B.FullBytes;
    hide B.FieldBytes;
    hide B.DecodeReward;
    hide DecodeList;
    hide EncodeList;
    B.FullBytesSplit(b, rest);
    var s6, s7 := B.TailRoundTrip(b, rest);
    var s5 := EncodeList(Tx.EncodeKey, b.transactions) + s6;
    var s1, s2, s3 := B.FieldsRoundTrip(b, Tx.Encode(b.reward) + s5);
    B.RewardRoundTrip(b.reward, s5);
    BoolRoundTrip(b.HasProducer(), if b.HasProducer() then (b.producerKey + b.producerSignature) + s7 else s7);
    FlagFirst(b, s7);
  }

  lemma FlagFirst(b: B.Block, s: Data)
    ensures B.ProducerSection(b) + s ==
      EncodeBool(b.HasProducer()) + if b.HasProducer() then (b.producerKey + b.producerSignature) + s else s
  {
    if b.HasProducer() {
      Assoc(EncodeBool(true), b.producerKey + b.producerSignature, s);
    }
  }

  /**
   Reading a well-formed block into a used object yields that block if and only if it carries its
   producer's signature or the object held none: stale producer fields survive otherwise.
   */
  lemma DeserializeIff(before: B.Block, b: B.Block, rest: Data)
    requires b.WellFormed()
    ensures DecodeOver(before, B.FullBytes(b) + rest) == Some((b, rest)) <==>
      b.HasProducer() || (before.producerKey == EMPTY_KEY && before.producerSignature == EMPTY_SIGNATURE)
  {
    hide B.Decode;
    hide B.FullBytes;
    hide CarriesProducer;
    B.TaggedBlockRoundTrip(b, rest);
    FlagRoundTrip(b, rest);
  }

  // ---------------------------------------------------------------- the block object

  class Block {
    var version: uint64
    var previousHash: Key
    var timestamp: uint64
    var index: uint64
    var reward: B.Reward
    var transactions: seq<Key>
    var producerKey: Key
    var producerSignature: Signature
    var validators: seq<B.Endorsement>

    function Value(): B.Block
      reads this
    {
      B.Block(version, previousHash, timestamp, index, reward, transactions, producerKey, producerSignature, validators)
    }

    /** A default block: version 1, an empty staker reward, no producer. */
    constructor ()
      ensures Value() == B.Block(1, EMPTY_KEY, 0, 0, Tx.Staker(Tx.Header(Tx.STAKER, 1), [], []), [],
                                 EMPTY_KEY, EMPTY_SIGNATURE, [])
    {
      version, previousHash, timestamp, index := 1, EMPTY_KEY, 0, 0;
      reward, transactions := Tx.Staker(Tx.Header(Tx.STAKER, 1), [], []), [];
      producerKey, producerSignature, validators := EMPTY_KEY, EMPTY_SIGNATURE, [];
    }

    // -------------------------------------------------------------- encoding

    /** The bytes up to the transaction hashes. */
    method WriteFront(w: Writer)
      modifies w
      ensures w.bytes == old(w.bytes) + B.ProducerBytes(Value())
    {
      hide Tx.Encode;
      hide EncodeList;
      w.Append(EncodeVarint(version));
      w.Append(previousHash);
      w.Append(EncodeVarint(timestamp));
      w.Append(EncodeVarint(index));
      Assoc4(old(w.bytes), EncodeVarint(version), previousHash, EncodeVarint(timestamp), EncodeVarint(index));
      WriteReward(w, reward);
      w.AppendCounted(Tx.EncodeKey, transactions);
      Assoc(old(w.bytes), B.FieldBytes(Value()), Tx.Encode(reward));
      Assoc(old(w.bytes), B.FieldBytes(Value()) + Tx.Encode(reward), EncodeList(Tx.EncodeKey, transactions));
      Assoc(B.FieldBytes(Value()), Tx.Encode(reward), EncodeList(Tx.EncodeKey, transactions));
    }

    method WriteProducer(w: Writer)
      modifies w
      ensures w.bytes == old(w.bytes) + B.ProducerSection(Value())
    {
      var hasProducer := producerKey != EMPTY_KEY && producerSignature != EMPTY_SIGNATURE;
      w.Append(EncodeBool(hasProducer));
      if hasProducer {
        w.Append(producerKey);
        w.Append(producerSignature);
        Assoc(old(w.bytes), EncodeBool(true), producerKey);
        Assoc(old(w.bytes), EncodeBool(true) + producerKey, producerSignature);
        Assoc(EncodeBool(true), producerKey, producerSignature);
      }
    }

    /** `false` is the exception raised for a validator digest without a producer signature. */
    method Serialize(w: Writer, mode: B.Mode) returns (ok: bool)
      modifies w
      ensures ok == B.Serialize(Value(), mode).Some?
      ensures ok ==> w.bytes == old(w.bytes) + B.Serialize(Value(), mode).value
    {
      hide B.ProducerBytes;
      hide B.ProducerSection;
      hide EncodeList;
      WriteFront(w);
      if mode == B.PRODUCER {
        return true;
      }
      WriteProducer(w);
      var front, middle := B.ProducerBytes(Value()), B.ProducerSection(Value());
      Assoc(old(w.bytes), front, middle);
      if !Value().HasProducer() && mode == B.VALIDATOR {
        return false;
      }
      if mode == B.VALIDATOR {
        return true;
      }
      w.AppendCounted(B.EncodeEndorsement, validators);
      Assoc(old(w.bytes), front + middle, EncodeList(B.EncodeEndorsement, validators));
      Assoc(front, middle, EncodeList(B.EncodeEndorsement, validators));
      ok := true;
    }

    method ReadFields(r: Reader) returns (ok: bool)
      modifies r, `version, `previousHash, `timestamp, `index
      ensures ok == DecodeFields(old(r.rest)).Some?
      ensures ok ==> DecodeFields(old(r.rest)) == Some((Fields(version, previousHash, timestamp, index), r.rest))
    {
      hide DecodeUint64;
      hide DecodeKey;
      ok := false;
      var v := r.Take(DecodeUint64);
      if v.None? {
        return;
      }
      version := v.value;
      var k := r.Take(DecodeKey);
      if k.None? {
        return;
      }
      previousHash := k.value;
      v := r.Take(DecodeUint64);
      if v.None? {
        return;
      }
      timestamp := v.value;
      v := r.Take(DecodeUint64);
      if v.None? {
        return;
      }
      index := v.value;
      ok := true;
    }

    /** The fields up to the transaction hashes. */
    method ReadFront(r: Reader) returns (ok: bool)
      modifies r, `version, `previousHash, `timestamp, `index, `reward, `transactions
      ensures ok == DecodeFront(old(r.rest)).Some?
      ensures ok ==> DecodeFront(old(r.rest)) == Some((FrontOf(Value()), r.rest))
    {
      hide DecodeFields;
      hide DecodeKey;
      hide B.DecodeReward;
      hide DecodeList;
      hide InsertAll;
      ok := ReadFields(r);
      if !ok {
        return;
      }
      ok := false;
      var t := ReadReward(r);
      if t.None? {
        return;
      }
      reward := t.value;
      var hashes := r.TakeOrdered(DecodeKey, Tx.EncodeKey);
      if hashes.None? {
        return;
      }
      transactions := hashes.value;
      ok := true;
    }

    /** The producer fields are assigned only when the flag announces them. */
    method ReadProducer(r: Reader) returns (ok: bool)
      modifies r, `producerKey, `producerSignature
      ensures ok == B.DecodeProducer(old(r.rest)).Some?
      ensures ok ==> DecodeBool(old(r.rest)).Some? && r.rest == B.DecodeProducer(old(r.rest)).value.1
      ensures ok ==> B.Endorsement(producerKey, producerSignature) == ProducerAfter(
        DecodeBool(old(r.rest)).value.0, B.DecodeProducer(old(r.rest)).value.0, old(Value()))
    {
      hide B.DecodeEndorsement;
      hide DecodeBool;
      var flag := r.Take(DecodeBool);
      if flag.None? {
        return false;
      }
      if flag.value {
        var e := r.Take(B.DecodeEndorsement);
        if e.None? {
          return false;
        }
        producerKey, producerSignature := e.value.validator, e.value.signature;
      }
      ok := true;
    }

    /** Fills the fields from the reader; `false` is the exception of a malformed block. */
    method Deserialize(r: Reader) returns (ok: bool)
      modifies this, r
      ensures ok == DecodeOver(old(Value()), old(r.rest)).Some?
      ensures ok ==> DecodeOver(old(Value()), old(r.rest)) == Some((Value(), r.rest))
    {
      hide DecodeFront;
      hide B.Decode;
      hide B.DecodeProducer;
      hide DecodeList;
      hide InsertAll;
      hide DecodeBool;
      hide B.DecodeEndorsement;
      DecodeSplit(r.rest);
      ok := ReadFront(r);
      if !ok {
        return;
      }
      ok := ReadProducer(r);
      if !ok {
        return;
      }
      var es := r.TakeOrdered(B.DecodeEndorsement, B.Signer);
      if es.None? {
        return false;
      }
      validators := es.value;
    }

    // -------------------------------------------------------------- appending and signing

    /**
     Afterwards the hash is in the set, which is in order and has the same other members; a hash that
     was there already changes nothing.
     */
    method AppendTransactionHash(hash: Key)
      modifies this`transactions
      ensures transactions == Insert(Tx.EncodeKey, old(transactions), hash)
      ensures Sorted(Tx.EncodeKey, old(transactions)) ==>
        && Sorted(Tx.EncodeKey, transactions)
        && (forall k: Key :: k in transactions <==> k in old(transactions) || k == hash)
        && (hash in old(transactions) ==> transactions == old(transactions))
    {
      transactions := Insert(Tx.EncodeKey, transactions, hash);
      if Sorted(Tx.EncodeKey, old(transactions)) {
        InsertMembers(Tx.EncodeKey, old(transactions), hash);
        InsertSorted(Tx.EncodeKey, old(transactions), hash);
        if i :| 0 <= i < |old(transactions)| && old(transactions)[i] == hash {
          assert HasKey(Tx.EncodeKey, old(transactions), Tx.EncodeKey(hash));
        }
      }
    }

    /**
     Afterwards the key has a signature, its old one if it had one; nobody else's changes and the map is
     still in order.
     */
    method AppendValidatorSignature(publicKey: Key, signature: Signature)
      modifies this`validators
      ensures validators == Insert(B.Signer, old(validators), B.Endorsement(publicKey, signature))
      ensures Sorted(B.Signer, old(validators)) ==>
        && Sorted(B.Signer, validators) && B.Endorses(validators, publicKey)
        && (B.Endorses(old(validators), publicKey) ==> validators == old(validators))
        && (!B.Endorses(old(validators), publicKey) ==>
              forall e :: e in validators <==> e in old(validators) || e == B.Endorsement(publicKey, signature))
    {
      var e := B.Endorsement(publicKey, signature);
      validators := Insert(B.Signer, validators, e);
      if Sorted(B.Signer, old(validators)) {
        InsertMembers(B.Signer, old(validators), e);
        InsertSorted(B.Signer, old(validators), e);
        if B.Endorses(old(validators), publicKey) {
          assert HasKey(B.Signer, old(validators), publicKey);
        } else {
          assert e in validators;
        }
      }
    }

    method MessageDigest(p: Primitives, mode: B.Mode) returns (digest: Option<Key>)
      ensures digest == B.Digest(p, Value(), mode)
    {
      hide B.Serialize;
      var w := new Writer();
      var ok := Serialize(w, mode);
      if !ok {
        return None;
      }
      ghost var bytes := B.Serialize(Value(), mode).value;
      assert [] + bytes == bytes;
      digest := Some(p.sha3(w.bytes));
    }

    /** The public key is set first, so it is already there when the digest is taken. */
    method ProducerSign(p: Primitives, secretKey: Key, nonce: nat) returns (publicKey: Key, signature: Signature)
      modifies this`producerKey, this`producerSignature
      ensures Value() == B.ProducerSign(p, old(Value()), secretKey, nonce)
      ensures publicKey == producerKey && signature == producerSignature
    {
      producerKey := p.publicKey(secretKey);
      var digest := MessageDigest(p, B.PRODUCER);
      producerSignature := p.sign(digest.value, secretKey, nonce);
      return producerKey, producerSignature;
    }

    /** The signature is returned even when the validator is already there and keeps the old one. */
    method ValidatorSign(p: Primitives, secretKey: Key, nonce: nat) returns (r: Option<B.Endorsement>)
      modifies this`validators
      ensures r.None? <==> B.ValidatorSign(p, old(Value()), secretKey, nonce).None?
      ensures r.None? ==> Value() == old(Value())
      ensures r.Some? ==> B.ValidatorSign(p, old(Value()), secretKey, nonce) == Some(Value())
      ensures r.Some? ==> r.value.validator == p.publicKey(secretKey)
      ensures r.Some? ==> r.value.signature == p.sign(B.Digest(p, old(Value()), B.VALIDATOR).value, secretKey, nonce)
    {
      hide B.Digest;
      var digest := MessageDigest(p, B.VALIDATOR);
      if digest.None? {
        return None;
      }
      var e := B.Endorsement(p.publicKey(secretKey), p.sign(digest.value, secretKey, nonce));
      validators := Insert(B.Signer, validators, e);
      r := Some(e);
    }

    /** The outcome for every block; `None` is the exception of a missing validator digest. */
    method ValidateConstruction(p: Primitives) returns (r: Option<bool>)
      ensures r == B.ValidateConstruction(p, Value())
      ensures r == Some(true) <==>
        && B.Constructed(p, Value()) && B.Endorsed(p, Value())
        && producerKey != EMPTY_KEY && producerSignature != EMPTY_SIGNATURE
      ensures r == None <==>
        B.Constructed(p, Value()) && (producerKey == EMPTY_KEY || producerSignature == EMPTY_SIGNATURE)
      ensures !p.checkSignature(p.sha3(B.ProducerBytes(Value())), producerKey, producerSignature) ==> r == Some(false)
    {
      hide B.ProducerBytes;
      hide B.ProducerSection;
      hide B.Constructed;
      hide B.Endorsed;
      var b := Value();
      B.ConstructionIff(p, b);
      if !B.RewardPaysSomeone(reward) || b.HasValidator(producerKey) {
        return Some(false);
      }
      var digest := MessageDigest(p, B.PRODUCER);
      if !p.checkSignature(digest.value, producerKey, producerSignature) || validators == [] {
        return Some(false);
      }
      digest := MessageDigest(p, B.VALIDATOR);
      if digest.None? {
        return None;
      }
      for i := 0 to |validators|
        invariant forall j :: 0 <= j < i ==>
          p.checkSignature(digest.value, validators[j].validator, validators[j].signature)
      {
        if !p.checkSignature(digest.value, validators[i].validator, validators[i].signature) {
          return Some(false);
        }
      }
      r := Some(true);
    }
  }

  lemma Assoc4(o: Data, a: Data, b: Data, c: Data, d: Data)
    ensures (((o + a) + b) + c) + d == o + (a + (b + (c + d)))
  {
  }
}
