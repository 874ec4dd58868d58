/**
 The two table layouts that the shipped writers and readers disagree on. The writers put the block
 hash after a transaction and the unlock block before an output; the readers expect the opposite.
 What the writers store reads back exactly when the two parts happen to commute.
 */
module Layouts {
  import opened Acceptance
  import opened Bytes
  import opened Tables
  import opened Lookups
  import opened ReadBack
  import opened Errors
  import Tx = Transactions

  // ---------------------------------------------------------------- encodings are shortest

  /** `e` is no longer than what was read from `s` before `rest`, and equal to it if it is as long. */
  predicate Shortest(e: Data, rest: Data, s: Data) {
    |e| + |rest| <= |s| && (|e| + |rest| == |s| ==> s == e + rest)
  }

  lemma Chain(e1: Data, e2: Data, rest: Data, s1: Data, s: Data)
    requires Shortest(e1, s1, s) && Shortest(e2, rest, s1)
    ensures Shortest(e1 + e2, rest, s)
  {
  }

  lemma {:induction false} VarintShortest(s: Data)
    requires DecodeVarint(s).Some?
    ensures Shortest(EncodeVarint(DecodeVarint(s).value.0), DecodeVarint(s).value.1, s)
  {
    if s[0] >= 0x80 {
      VarintShortest(s[1..]);
      var high: nat := DecodeVarint(s[1..]).value.0;
      var v: nat := s[0] - 0x80 + 0x80 * high;
      if high > 0 {
        assert v % 0x80 == s[0] - 0x80 && v / 0x80 == high;
      }
    }
  }

  lemma KeyShortest(s: Data)
    requires DecodeKey(s).Some?
    ensures Shortest(DecodeKey(s).value.0, DecodeKey(s).value.1, s)
  {
  }

  lemma SignatureShortest(s: Data)
    requires DecodeSignature(s).Some?
    ensures Shortest(DecodeSignature(s).value.0, DecodeSignature(s).value.1, s)
  {
  }

  ghost predicate Tight<T>(enc: T -> Data, dec: Data -> Parsed<T>) {
    forall s :: dec(s).Some? ==> Shortest(enc(dec(s).value.0), dec(s).value.1, s)
  }

  lemma {:induction false} AllShortest<T>(enc: T -> Data, dec: Data -> Parsed<T>, n: nat, s: Data)
    requires Tight(enc, dec) && DecodeAll(dec, n, s).Some?
    ensures Shortest(EncodeAll(enc, DecodeAll(dec, n, s).value.0), DecodeAll(dec, n, s).value.1, s)
  {
    if n > 0 {
      var (x, s1) := dec(s).value;
      AllShortest(enc, dec, n - 1, s1);
      var (xs, rest) := DecodeAll(dec, n - 1, s1).value;
      assert ([x] + xs)[1..] == xs;
      Chain(enc(x), EncodeAll(enc, xs), rest, s1, s);
    }
  }

  lemma ListShortest<T>(enc: T -> Data, dec: Data -> Parsed<T>, s: Data)
    requires Tight(enc, dec) && DecodeList(dec, s).Some?
    ensures Shortest(EncodeList(enc, DecodeList(dec, s).value.0), DecodeList(dec, s).value.1, s)
  {
    VarintShortest(s);
    var (n, s1) := DecodeVarint(s).value;
    AllShortest(enc, dec, n, s1);
    var (xs, rest) := DecodeList(dec, s).value;
    Chain(EncodeVarint(n), EncodeAll(enc, xs), rest, s1, s);
  }

  lemma HeaderShortest(s: Data)
    requires Tx.DecodeHeader(s).Some?
    ensures Shortest(Tx.EncodeHeader(Tx.DecodeHeader(s).value.0), Tx.DecodeHeader(s).value.1, s)
  {
    var (txType, s1) := DecodeUint64(s).value;
    var (version, s2) := DecodeUint64(s1).value;
    VarintShortest(s);
    VarintShortest(s1);
    Chain(EncodeVarint(txType), EncodeVarint(version), s2, s1, s);
  }

  lemma PrefixShortest(s: Data)
    requires Tx.DecodePrefix(s).Some?
    ensures Shortest(Tx.EncodePrefix(Tx.DecodePrefix(s).value.0), Tx.DecodePrefix(s).value.1, s)
  {
    hide Tx.DecodeHeader;
    hide Tx.EncodeHeader;
    var (h, s1) := Tx.DecodeHeader(s).value;
    var (unlockBlock, s2) := DecodeUint64(s1).value;
    var (publicKey, s3) := DecodeKey(s2).value;
    HeaderShortest(s);
    VarintShortest(s1);
    KeyShortest(s2);
    Chain(EncodeVarint(unlockBlock), publicKey, s3, s2, s1);
    Chain(Tx.EncodeHeader(h), EncodeVarint(unlockBlock) + publicKey, s3, s1, s);
  }

  lemma OutputShortest(s: Data)
    requires Tx.DecodeOutput(s).Some?
    ensures Shortest(Tx.EncodeOutput(Tx.DecodeOutput(s).value.0), Tx.DecodeOutput(s).value.1, s)
  {
    var (publicEphemeral, s1) := DecodeKey(s).value;
    var (amount, s2) := DecodeUint64(s1).value;
    var (commitment, s3) := DecodeKey(s2).value;
    KeyShortest(s);
    VarintShortest(s1);
    KeyShortest(s2);
    Chain(EncodeVarint(amount), commitment, s3, s2, s1);
    Chain(publicEphemeral, EncodeVarint(amount) + commitment, s3, s1, s);
  }

  lemma StakerOutputShortest(s: Data)
    requires Tx.DecodeStakerOutput(s).Some?
    ensures Shortest(Tx.EncodeStakerOutput(Tx.DecodeStakerOutput(s).value.0), Tx.DecodeStakerOutput(s).value.1, s)
  {
    var (stakerId, s1) := DecodeKey(s).value;
    var (amount, s2) := DecodeUint64(s1).value;
    KeyShortest(s);
    VarintShortest(s1);
    Chain(stakerId, EncodeVarint(amount), s2, s1, s);
  }

  lemma PiecesTight()
    ensures Tight(Tx.EncodeKey, DecodeKey)
    ensures Tight(Tx.EncodeOutput, Tx.DecodeOutput)
    ensures Tight(Tx.EncodeStakerOutput, Tx.DecodeStakerOutput)
  {
    hide Shortest;
    hide Tx.DecodeOutput;
    hide Tx.DecodeStakerOutput;
    forall s | DecodeKey(s).Some? ensures Shortest(Tx.EncodeKey(DecodeKey(s).value.0), DecodeKey(s).value.1, s) {
      KeyShortest(s);
    }
    forall s | Tx.DecodeOutput(s).Some?
      ensures Shortest(Tx.EncodeOutput(Tx.DecodeOutput(s).value.0), Tx.DecodeOutput(s).value.1, s)
    {
      OutputShortest(s);
    }
    forall s | Tx.DecodeStakerOutput(s).Some?
      ensures Shortest(Tx.EncodeStakerOutput(Tx.DecodeStakerOutput(s).value.0), Tx.DecodeStakerOutput(s).value.1, s)
    {
      StakerOutputShortest(s);
    }
  }

  lemma BodyShortest(s: Data)
    requires Tx.DecodeBody(s).Some?
    ensures Shortest(Tx.EncodeBody(Tx.DecodeBody(s).value.0), Tx.DecodeBody(s).value.1, s)
  {
    hide DecodeList;
    hide EncodeList;
    hide Shortest;
    var (nonce, s1) := DecodeUint64(s).value;
    var (fee, s2) := DecodeUint64(s1).value;
    var (keyImages, s3) := DecodeList(DecodeKey, s2).value;
    var (outputs, s4) := DecodeList(Tx.DecodeOutput, s3).value;
    PiecesTight();
    VarintShortest(s);
    VarintShortest(s1);
    ListShortest(Tx.EncodeKey, DecodeKey, s2);
    ListShortest(Tx.EncodeOutput, Tx.DecodeOutput, s3);
    var k, o := EncodeList(Tx.EncodeKey, keyImages), EncodeList(Tx.EncodeOutput, outputs);
    Chain(k, o, s4, s3, s2);
    Chain(EncodeVarint(fee), k + o, s4, s2, s1);
    Chain(EncodeVarint(nonce), EncodeVarint(fee) + (k + o), s4, s1, s);
  }

  lemma ExtraShortest(s: Data)
    requires Tx.DecodeExtra(s).Some?
    ensures Shortest(Tx.EncodeExtra(Tx.DecodeExtra(s).value.0), Tx.DecodeExtra(s).value.1, s)
  {
    VarintShortest(s);
    var (n, s1) := DecodeVarint(s).value;
    assert Shortest(s1[..n], s1[n..], s1) by {
      assert s1 == s1[..n] + s1[n..];
    }
    Chain(EncodeVarint(n), s1[..n], s1[n..], s1, s);
  }

  lemma StakeDataShortest(s: Data)
    requires Tx.DecodeData(Tx.STAKE, s).Some?
    ensures Shortest(Tx.EncodeData(Tx.DecodeData(Tx.STAKE, s).value.0), Tx.DecodeData(Tx.STAKE, s).value.1, s)
  {
    hide Shortest;
    var (amount, s1) := DecodeUint64(s).value;
    var (candidate, s2) := DecodeKey(s1).value;
    var (viewKey, s3) := DecodeKey(s2).value;
    var (spendKey, s4) := DecodeKey(s3).value;
    VarintShortest(s);
    KeyShortest(s1);
    KeyShortest(s2);
    KeyShortest(s3);
    Chain(viewKey, spendKey, s4, s3, s2);
    Chain(candidate, viewKey + spendKey, s4, s2, s1);
    Chain(EncodeVarint(amount), candidate + (viewKey + spendKey), s4, s1, s);
  }

  lemma RecallDataShortest(s: Data)
    requires Tx.DecodeData(Tx.RECALL_STAKE, s).Some?
    ensures Shortest(Tx.EncodeData(Tx.DecodeData(Tx.RECALL_STAKE, s).value.0),
                     Tx.DecodeData(Tx.RECALL_STAKE, s).value.1, s)
  {
    hide Shortest;
    var (amount, s1) := DecodeUint64(s).value;
    var (candidate, s2) := DecodeKey(s1).value;
    var (stakerId, s3) := DecodeKey(s2).value;
    var (viewSignature, s4) := DecodeSignature(s3).value;
    var (spendSignature, s5) := DecodeSignature(s4).value;
    VarintShortest(s);
    KeyShortest(s1);
    KeyShortest(s2);
    SignatureShortest(s3);
    SignatureShortest(s4);
    Chain(viewSignature, spendSignature, s5, s4, s3);
    Chain(stakerId, viewSignature + spendSignature, s5, s3, s2);
    Chain(candidate, stakerId + (viewSignature + spendSignature), s5, s2, s1);
    Chain(EncodeVarint(amount), candidate + (stakerId + (viewSignature + spendSignature)), s5, s1, s);
  }

  lemma UserShortest(tag: uint64, s: Data)
    requires tag in {Tx.NORMAL, Tx.STAKE, Tx.RECALL_STAKE} && Tx.DecodeUser(tag, s).Some?
    ensures Shortest(Tx.Encode(Tx.DecodeUser(tag, s).value.0), Tx.DecodeUser(tag, s).value.1, s)
  {
    hide Shortest;
    hide Tx.DecodePrefix;
    hide Tx.EncodePrefix;
    hide Tx.DecodeBody;
    hide Tx.EncodeBody;
    hide Tx.DecodeData;
    hide Tx.EncodeData;
    var (prefix, s1) := Tx.DecodePrefix(s).value;
    var (body, s2) := Tx.DecodeBody(s1).value;
    var (data, s3) := Tx.DecodeData(tag, s2).value;
    var (suffix, s4) := Tx.DecodeSuffix(s3).value;
    PrefixShortest(s);
    BodyShortest(s1);
    DataShortest(tag, s2);
    SuffixShortest(s3);
    Chain(Tx.EncodeBody(body), Tx.EncodeData(data), s3, s2, s1);
    Chain(Tx.EncodePrefix(prefix), Tx.EncodeBody(body) + Tx.EncodeData(data), s3, s1, s);
    Chain(Tx.EncodeDigest(prefix, body, data), Tx.EncodeSuffix(suffix), s4, s3, s);
  }

  lemma DataShortest(tag: uint64, s: Data)
    requires tag in {Tx.NORMAL, Tx.STAKE, Tx.RECALL_STAKE} && Tx.DecodeData(tag, s).Some?
    ensures Shortest(Tx.EncodeData(Tx.DecodeData(tag, s).value.0), Tx.DecodeData(tag, s).value.1, s)
  {
    hide Shortest;
    if tag == Tx.NORMAL {
      ExtraShortest(s);
    } else if tag == Tx.STAKE {
      StakeDataShortest(s);
    } else {
      RecallDataShortest(s);
    }
  }

  lemma SuffixShortest(s: Data)
    requires Tx.DecodeSuffix(s).Some?
    ensures Shortest(Tx.EncodeSuffix(Tx.DecodeSuffix(s).value.0), Tx.DecodeSuffix(s).value.1, s)
  {
    var (signatureHash, s1) := DecodeKey(s).value;
    var (rangeProofHash, s2) := DecodeKey(s1).value;
    KeyShortest(s);
    KeyShortest(s1);
    Chain(signatureHash, rangeProofHash, s2, s1, s);
  }

  lemma GenesisShortest(s: Data)
    requires Tx.DecodeGenesis(s).Some?
    ensures Shortest(Tx.Encode(Tx.DecodeGenesis(s).value.0), Tx.DecodeGenesis(s).value.1, s)
  {
    hide Shortest;
    hide Tx.DecodePrefix;
    hide Tx.EncodePrefix;
    hide DecodeList;
    hide EncodeList;
    var (prefix, s1) := Tx.DecodePrefix(s).value;
    var (secretKey, s2) := DecodeKey(s1).value;
    var (outputs, s3) := DecodeList(Tx.DecodeOutput, s2).value;
    PiecesTight();
    PrefixShortest(s);
    KeyShortest(s1);
    ListShortest(Tx.EncodeOutput, Tx.DecodeOutput, s2);
    Chain(secretKey, EncodeList(Tx.EncodeOutput, outputs), s3, s2, s1);
    Chain(Tx.EncodePrefix(prefix), secretKey + EncodeList(Tx.EncodeOutput, outputs), s3, s1, s);
  }

  lemma StakerShortest(s: Data)
    requires Tx.DecodeStaker(s).Some?
    ensures Shortest(Tx.Encode(Tx.DecodeStaker(s).value.0), Tx.DecodeStaker(s).value.1, s)
  {
    hide Shortest;
    hide Tx.DecodeHeader;
    hide Tx.EncodeHeader;
    hide DecodeList;
    hide EncodeList;
    var (header, s1) := Tx.DecodeHeader(s).value;
    var (stakerOutputs, s2) := DecodeList(Tx.DecodeStakerOutput, s1).value;
    var (penalties, s3) := DecodeList(Tx.DecodeStakerOutput, s2).value;
    PiecesTight();
    HeaderShortest(s);
    ListShortest(Tx.EncodeStakerOutput, Tx.DecodeStakerOutput, s1);
    ListShortest(Tx.EncodeStakerOutput, Tx.DecodeStakerOutput, s2);
    var a, b := EncodeList(Tx.EncodeStakerOutput, stakerOutputs), EncodeList(Tx.EncodeStakerOutput, penalties);
    Chain(a, b, s3, s2, s1);
    Chain(Tx.EncodeHeader(header), a + b, s3, s1, s);
  }

  lemma StakeRefundShortest(s: Data)
    requires Tx.DecodeStakeRefund(s).Some?
    ensures Shortest(Tx.Encode(Tx.DecodeStakeRefund(s).value.0), Tx.DecodeStakeRefund(s).value.1, s)
  {
    hide Shortest;
    hide Tx.DecodePrefix;
    hide Tx.EncodePrefix;
    hide DecodeList;
    hide EncodeList;
    var (prefix, s1) := Tx.DecodePrefix(s).value;
    var (secretKey, s2) := DecodeKey(s1).value;
    var (recallStakeTx, s3) := DecodeKey(s2).value;
    var (outputs, s4) := DecodeList(Tx.DecodeOutput, s3).value;
    PiecesTight();
    PrefixShortest(s);
    KeyShortest(s1);
    KeyShortest(s2);
    ListShortest(Tx.EncodeOutput, Tx.DecodeOutput, s3);
    var o := EncodeList(Tx.EncodeOutput, outputs);
    Chain(recallStakeTx, o, s4, s3, s2);
    Chain(secretKey, recallStakeTx + o, s4, s2, s1);
    Chain(Tx.EncodePrefix(prefix), secretKey + (recallStakeTx + o), s4, s1, s);
  }

  /** The encoding of a transaction is the shortest byte string that reads as that transaction. */
  lemma TransactionShortest(s: Data)
    requires Tx.Decode(s).Some?
    ensures Shortest(Tx.Encode(Tx.Decode(s).value.0), Tx.Decode(s).value.1, s)
  {
    hide Shortest;
    hide Tx.Encode;
    hide Tx.DecodeGenesis;
    hide Tx.DecodeStaker;
    hide Tx.DecodeUser;
    hide Tx.DecodeStakeRefund;
    var tag := DecodeUint64(s).value.0;
    if tag == Tx.GENESIS {
      GenesisShortest(s);
    } else if tag == Tx.STAKER {
      StakerShortest(s);
    } else if tag == Tx.STAKE_REFUND {
      StakeRefundShortest(s);
    } else {
      UserShortest(tag, s);
    }
  }

  // ---------------------------------------------------------------- what the writers store

  function WrittenTransaction(tx: ChainTx, blockHash: Key): Data {
    Tx.Encode(tx) + blockHash
  }

  function WrittenOutput(o: Tx.Output, unlockBlock: uint64): Data {
    EncodeVarint(unlockBlock) + Tx.EncodeOutput(o)
  }

  /** A transaction as written reads back if and only if it would have been written the same either way. */
  lemma WrittenTransactionReadsBackIff(tx: ChainTx, blockHash: Key)
    requires tx.Tagged()
    ensures ParseStoredTransaction(WrittenTransaction(tx, blockHash)) == Ok((tx, blockHash)) <==>
      Tx.Encode(tx) + blockHash == blockHash + Tx.Encode(tx)
  {
    hide Tx.Encode;
    hide Tx.Decode;
    var s := WrittenTransaction(tx, blockHash);
    KeyShortest(s);
    var s1 := DecodeKey(s).value.1;
    if Tx.Decode(s1).Some? {
      TransactionShortest(s1);
    }
    if s == blockHash + Tx.Encode(tx) {
      KeyRoundTrip(blockHash, Tx.Encode(tx));
      Tx.TransactionRoundTrip(tx, []);
      assert Tx.Encode(tx) + [] == Tx.Encode(tx);
    }
  }

  lemma WrittenOutputReadsBackIff(o: Tx.Output, unlockBlock: uint64)
    ensures ParseStoredOutput(WrittenOutput(o, unlockBlock)) == Ok((o, unlockBlock)) <==>
      EncodeVarint(unlockBlock) + Tx.EncodeOutput(o) == Tx.EncodeOutput(o) + EncodeVarint(unlockBlock)
  {
    hide Tx.EncodeOutput;
    hide Tx.DecodeOutput;
    hide EncodeVarint;
    hide DecodeVarint;
    var s := WrittenOutput(o, unlockBlock);
    if ParseStoredOutput(s) == Ok((o, unlockBlock)) {
      OutputShortest(s);
      var s1 := Tx.DecodeOutput(s).value.1;
      VarintShortest(s1);
      Chain(Tx.EncodeOutput(o), EncodeVarint(unlockBlock), DecodeVarint(s1).value.1, s1, s);
    }
    if s == Tx.EncodeOutput(o) + EncodeVarint(unlockBlock) {
      StoredOutputReadsBack(o, unlockBlock);
    }
  }

  // ---------------------------------------------------------------- failing inputs

  lemma CommutesWithOne(u: byte, x: Data)
    ensures [u] + x == x + [u] <==> forall i :: 0 <= i < |x| ==> x[i] == u
  {
    if [u] + x == x + [u] {
      AllTheSame(u, x, |x|);
    }
  }

  lemma {:induction false} AllTheSame(u: byte, x: Data, n: nat)
    requires [u] + x == x + [u] && n <= |x|
    ensures forall i :: 0 <= i < n ==> x[i] == u
  {
    if n > 0 {
      AllTheSame(u, x, n - 1);
      assert ([u] + x)[n - 1] == (x + [u])[n - 1];
    }
  }

  /** An output with a small unlock block, as written, reads back if and only if it repeats that one byte. */
  lemma SmallUnlockIff(o: Tx.Output, unlockBlock: byte)
    requires unlockBlock < 0x80
    ensures ParseStoredOutput(WrittenOutput(o, unlockBlock)) == Ok((o, unlockBlock)) <==>
      forall i :: 0 <= i < |Tx.EncodeOutput(o)| ==> Tx.EncodeOutput(o)[i] == unlockBlock
  {
    hide Tx.EncodeOutput;
    hide ParseStoredOutput;
    WrittenOutputReadsBackIff(o, unlockBlock);
    assert EncodeVarint(unlockBlock) == [unlockBlock];
    CommutesWithOne(unlockBlock, Tx.EncodeOutput(o));
  }

  /** No output that passes its own check, and is free from the start, reads back as written. */
  lemma WrittenFreeOutputLost(o: Tx.Output)
    requires CheckOutput(o) == SUCCESS
    ensures ParseStoredOutput(WrittenOutput(o, 0)) != Ok((o, 0))
  {
    hide ParseStoredOutput;
    SmallUnlockIff(o, 0);
    if forall i :: 0 <= i < |Tx.EncodeOutput(o)| ==> Tx.EncodeOutput(o)[i] == 0 {
      AllZeroBytes(o);
    }
  }

  lemma AllZeroBytes(o: Tx.Output)
    requires forall i :: 0 <= i < |Tx.EncodeOutput(o)| ==> Tx.EncodeOutput(o)[i] == 0
    ensures o.publicEphemeral == EMPTY_KEY
  {
    forall i | 0 <= i < 32 ensures o.publicEphemeral[i] == EMPTY_KEY[i] {
      assert Tx.EncodeOutput(o)[i] == 0;
    }
  }

  const DEFAULT_REWARD := Tx.Staker(Tx.Header(Tx.STAKER, 1), [], [])

  lemma {:induction false} Repeats(h: Data, n: nat)
    requires [1, 1, 0, 0] + h == h + [1, 1, 0, 0] && n <= |h|
    ensures forall i :: 0 <= i < n ==> h[i] == [1, 1, 0, 0][i % 4]
  {
    if n > 0 {
      var x: Data := [1, 1, 0, 0];
      Repeats(h, n - 1);
      assert (x + h)[n - 1] == (h + x)[n - 1];
      if n > 4 {
        assert h[n - 1] == h[n - 5];
      }
    }
  }

  lemma RepeatsCommute(h: Key)
    requires forall i :: 0 <= i < 32 ==> h[i] == [1, 1, 0, 0][i % 4]
    ensures [1, 1, 0, 0] + h == h + [1, 1, 0, 0]
  {
    var x: Data := [1, 1, 0, 0];
    forall i | 0 <= i < 36 ensures (x + h)[i] == (h + x)[i] {
      if 4 <= i < 32 {
        assert (i - 4) % 4 == i % 4;
      } else if i >= 32 {
        assert (i - 4) % 4 == i - 32;
      }
    }
  }

  /**
   The default reward, as written, reads back if and only if the block hash is its four bytes eight
   times over: for no hash that does not begin with them.
   */
  lemma WrittenRewardReadsBackIff(blockHash: Key)
    ensures
      ParseStoredTransaction(WrittenTransaction(DEFAULT_REWARD, blockHash)) == Ok((DEFAULT_REWARD, blockHash)) <==>
      forall i :: 0 <= i < 32 ==> blockHash[i] == [1, 1, 0, 0][i % 4]
  {
    hide ParseStoredTransaction;
    hide WrittenTransaction;
    WrittenTransactionReadsBackIff(DEFAULT_REWARD, blockHash);
    assert Tx.Encode(DEFAULT_REWARD) == [1, 1, 0, 0];
    if [1, 1, 0, 0] + blockHash == blockHash + [1, 1, 0, 0] {
      Repeats(blockHash, 32);
    }
    if forall i :: 0 <= i < 32 ==> blockHash[i] == [1, 1, 0, 0][i % 4] {
      RepeatsCommute(blockHash);
    }
  }
}
