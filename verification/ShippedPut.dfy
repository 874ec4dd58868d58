/**
 Put and get as shipped: blocks written in the writers' layout and read in the readers'.
 */
module ShippedPut {
  import opened Acceptance
  import opened Bytes
  import opened Collections
  import opened Crypto
  import opened Errors
  import opened Layouts
  import opened Lmdb
  import opened Lookups
  import opened ReadBack
  import opened Tables
  import Tx = Transactions
  import B = Blocks

  // ---------------------------------------------------------------- what the writers write

  function ShippedOutputWrites(p: Primitives, os: seq<Tx.Output>, unlockBlock: uint64): (ws: seq<Write>)
    ensures |ws| == |os|
    ensures forall i :: 0 <= i < |ws| ==>
      ws[i] == Write(Entry(TRANSACTION_OUTPUTS, Tx.OutputHash(p, os[i])), WrittenOutput(os[i], unlockBlock))
  {
    seq(|os|, i requires 0 <= i < |os| =>
      Write(Entry(TRANSACTION_OUTPUTS, Tx.OutputHash(p, os[i])), WrittenOutput(os[i], unlockBlock)))
  }

  function ShippedTxWrites(p: Primitives, tx: ChainTx, blockHash: Key): seq<Write> {
    [Write(TransactionEntry(p, tx), WrittenTransaction(tx, blockHash))] +
    KeyImageWrites(tx.KeyImages()) + ShippedOutputWrites(p, tx.NewOutputs(), tx.UnlockBlock())
  }

  function ShippedTxsWrites(p: Primitives, txs: seq<ChainTx>, blockHash: Key): seq<Write> {
    if txs == [] then []
    else ShippedTxsWrites(p, txs[..|txs| - 1], blockHash) + ShippedTxWrites(p, txs[|txs| - 1], blockHash)
  }

  /** The store after `put_block` as shipped. */
  function AfterShippedPut(p: Primitives, s: Store, b: B.Block, txs: seq<ChainTx>): Store {
    var blockHash := B.Hash(p, b);
    PutAll(s, ShippedTxWrites(p, b.reward, blockHash) + ShippedTxsWrites(p, txs, blockHash) + HeaderWrites(p, b))
  }

  // ---------------------------------------------------------------- what is stored where

  lemma ShippedTxValue(p: Primitives, s: Store, tx: ChainTx, blockHash: Key)
    ensures Holds(PutAll(s, ShippedTxWrites(p, tx, blockHash)), TransactionEntry(p, tx),
                  WrittenTransaction(tx, blockHash))
    ensures forall e :: e in Entries(ShippedTxWrites(p, tx, blockHash)) ==>
      e.table == KEY_IMAGES || e.table == TRANSACTION_OUTPUTS || e == TransactionEntry(p, tx)
  {
    hide Tx.Hash;
    hide Tx.OutputHash;
    hide WrittenTransaction;
    hide WrittenOutput;
    hide PutAll;
    PutAllLast(s, ShippedTxWrites(p, tx, blockHash), 0);
  }

  lemma {:induction false} ShippedTxsValue(p: Primitives, s: Store, txs: seq<ChainTx>, blockHash: Key, i: nat)
    requires i < |txs| && Distinct(TxHashes(p, txs))
    ensures Holds(PutAll(s, ShippedTxsWrites(p, txs, blockHash)), TransactionEntry(p, txs[i]),
                  WrittenTransaction(txs[i], blockHash))
  {
    hide Tx.Hash;
    hide ShippedTxWrites;
    hide WrittenTransaction;
    hide PutAll;
    var front, last := txs[..|txs| - 1], txs[|txs| - 1];
    var s1 := PutAll(s, ShippedTxsWrites(p, front, blockHash));
    PutAllConcat(s, ShippedTxsWrites(p, front, blockHash), ShippedTxWrites(p, last, blockHash));
    ShippedTxValue(p, s1, last, blockHash);
    if i < |txs| - 1 {
      assert TxHashes(p, front) == TxHashes(p, txs)[..|txs| - 1];
      ShippedTxsValue(p, s, front, blockHash, i);
      assert TxHashes(p, txs)[i] != TxHashes(p, txs)[|txs| - 1];
      PutAllKeys(s1, ShippedTxWrites(p, last, blockHash));
    }
  }

  // ---------------------------------------------------------------- what reads back

  /** The bytes as written, less the 32 bytes taken for the block hash, are the transaction again. */
  predicate SurvivesReading(tx: ChainTx, blockHash: Key) {
    (Tx.Encode(tx) + blockHash)[32..] == Tx.Encode(tx)
  }

  /** The byte at `j` of `length` bytes that repeat the hash, counted from the end. */
  function Repeated(h: Key, length: nat, j: nat): byte
    requires j < length
  {
    h[31 - (length - 1 - j) % 32]
  }

  /** From `from` on the encoding is the hash over and over, counted from the end. */
  predicate RepeatsHash(e: Data, h: Key, from: nat) {
    forall j | from <= j < |e| :: e[j] == Repeated(h, |e|, j)
  }

  /** A transaction survives if and only if its whole encoding is the block hash repeated, cut at the front. */
  lemma SurvivesIff(tx: ChainTx, blockHash: Key)
    ensures SurvivesReading(tx, blockHash) <==> RepeatsHash(Tx.Encode(tx), blockHash, 0)
  {
    hide Tx.Encode;
    var e := Tx.Encode(tx);
    if SurvivesReading(tx, blockHash) {
      RepeatsFrom(e, blockHash, 0);
    }
    if RepeatsHash(e, blockHash, 0) {
      var s := (e + blockHash)[32..];
      forall j | 0 <= j < |e| ensures s[j] == e[j] {
        AtDistance(e, blockHash, j);
      }
    }
  }

  lemma {:induction false} RepeatsFrom(e: Data, h: Key, from: nat)
    requires (e + h)[32..] == e && from <= |e|
    ensures RepeatsHash(e, h, from)
    decreases |e| - from
  {
    if from < |e| {
      RepeatsFrom(e, h, from + 1);
      assert e[from] == (e + h)[32..][from] == (e + h)[from + 32];
      if from + 32 < |e| {
        assert e[from + 32] == Repeated(h, |e|, from + 32);
        OneTurn(|e| - 1 - from);
      }
    }
  }

  lemma OneTurn(n: nat)
    ensures n >= 32 ==> (n - 32) % 32 == n % 32
  {
  }

  /** What stands 32 bytes on from a place in a repeating encoding. */
  lemma AtDistance(e: Data, h: Key, j: nat)
    requires RepeatsHash(e, h, 0) && j < |e|
    ensures (e + h)[j + 32] == e[j]
  {
    assert e[j] == Repeated(h, |e|, j);
    if j + 32 < |e| {
      assert e[j + 32] == Repeated(h, |e|, j + 32);
      OneTurn(|e| - 1 - j);
    }
  }

  /** A user transaction that survives ends in the block hash twice: as both of its suffix hashes. */
  lemma SurvivingUser(tx: ChainTx, blockHash: Key)
    requires tx.User? && SurvivesReading(tx, blockHash)
    ensures tx.suffix.signatureHash == blockHash && tx.suffix.rangeProofHash == blockHash
  {
    hide Tx.EncodeDigest;
    SurvivesIff(tx, blockHash);
    var e, d, x := Tx.Encode(tx), Tx.EncodeDigest(tx.prefix, tx.body, tx.data), tx.suffix;
    assert e == d + (x.signatureHash + x.rangeProofHash);
    forall j | 0 <= j < 32 ensures x.rangeProofHash[j] == blockHash[j] && x.signatureHash[j] == blockHash[j] {
      assert e[|d| + j] == Repeated(blockHash, |e|, |d| + j);
      assert e[|d| + 32 + j] == Repeated(blockHash, |e|, |d| + 32 + j);
    }
    assert x.rangeProofHash == blockHash && x.signatureHash == blockHash;
  }

  lemma ReadsAsItselfIff(tx: ChainTx, blockHash: Key)
    requires tx.Tagged()
    ensures
      var r := ParseStoredTransaction(WrittenTransaction(tx, blockHash));
      (r.Ok? && r.value.0 == tx) <==> SurvivesReading(tx, blockHash)
  {
    hide Tx.Encode;
    hide Tx.Decode;
    hide Shortest;
    var s1 := DecodeKey(WrittenTransaction(tx, blockHash)).value.1;
    assert s1 == (Tx.Encode(tx) + blockHash)[32..];
    if Tx.Decode(s1).Some? && Tx.Decode(s1).value.0 == tx {
      TransactionShortest(s1);
      SameLength(Tx.Encode(tx), Tx.Decode(s1).value.1, s1);
    }
    if s1 == Tx.Encode(tx) {
      Tx.TransactionRoundTrip(tx, []);
      assert Tx.Encode(tx) + [] == Tx.Encode(tx);
    }
  }

  lemma SameLength(e: Data, rest: Data, s: Data)
    requires Shortest(e, rest, s) && |s| == |e|
    ensures s == e
  {
    assert rest == [];
    assert e + rest == e;
  }

  ghost predicate HoldsShipped(p: Primitives, s: Store, txs: seq<ChainTx>, blockHash: Key) {
    forall i :: 0 <= i < |txs| ==> Holds(s, TransactionEntry(p, txs[i]), WrittenTransaction(txs[i], blockHash))
  }

  ghost predicate AllSurvive(txs: seq<ChainTx>, blockHash: Key) {
    forall i :: 0 <= i < |txs| ==> SurvivesReading(txs[i], blockHash)
  }

  lemma {:induction false} ReadAllShippedIff(p: Primitives, s: Store, txs: seq<ChainTx>, blockHash: Key)
    requires forall i :: 0 <= i < |txs| ==> txs[i].Tagged()
    requires HoldsShipped(p, s, txs, blockHash)
    ensures ReadAll(s, TxHashes(p, txs)) == Ok(txs) <==> AllSurvive(txs, blockHash)
  {
    hide Tx.Hash;
    hide WrittenTransaction;
    hide ParseStoredTransaction;
    hide SurvivesReading;
    if txs != [] {
      var front, last := txs[..|txs| - 1], txs[|txs| - 1];
      assert TxHashes(p, txs)[..|txs| - 1] == TxHashes(p, front);
      ReadAllShippedIff(p, s, front, blockHash);
      ReadsAsItselfIff(last, blockHash);
      assert Holds(s, TransactionEntry(p, last), WrittenTransaction(last, blockHash));
      assert txs == front + [last];
      assert forall i :: 0 <= i < |front| ==> front[i] == txs[i];
      if ReadAll(s, TxHashes(p, txs)) == Ok(txs) {
        var r := ReadAll(s, TxHashes(p, front)).value;
        assert (r + [ReadMember(s, TxHashes(p, txs)[|txs| - 1]).value])[..|txs| - 1] == r;
        assert txs[..|txs| - 1] == front;
      }
    }
  }

  /**
   Put and get as shipped: the block comes back with its transactions if and only if every listed
   transaction happens to survive the mismatch. The reward is never read, so a block without further
   transactions always comes back.
   */
  lemma ShippedPutThenGetIff(p: Primitives, s: Store, b: B.Block, txs: seq<ChainTx>)
    requires Coherent(p, b, txs)
    ensures ReadBlock(AfterShippedPut(p, s, b, txs), B.Hash(p, b)) == Ok((b, txs)) <==> AllSurvive(txs, B.Hash(p, b))
    ensures txs == [] ==> ReadBlock(AfterShippedPut(p, s, b, txs), B.Hash(p, b)) == Ok((b, txs))
  {
    hide Tx.Hash;
    hide B.Hash;
    hide B.FullBytes;
    hide B.Decode;
    hide PutAll;
    hide ShippedTxWrites;
    hide ShippedTxsWrites;
    hide HeaderWrites;
    hide ReadAll;
    hide WrittenTransaction;
    hide SurvivesReading;
    var blockHash := B.Hash(p, b);
    var s1 := PutAll(s, ShippedTxWrites(p, b.reward, blockHash));
    var s2 := PutAll(s1, ShippedTxsWrites(p, txs, blockHash));
    PutAllConcat(s, ShippedTxWrites(p, b.reward, blockHash), ShippedTxsWrites(p, txs, blockHash));
    PutAllConcat(s, ShippedTxWrites(p, b.reward, blockHash) + ShippedTxsWrites(p, txs, blockHash), HeaderWrites(p, b));
    HashesDistinct(p, b, txs);
    HeaderValues(p, s2, b);
    var after := AfterShippedPut(p, s, b, txs);
    forall i | 0 <= i < |txs|
      ensures Holds(after, TransactionEntry(p, txs[i]), WrittenTransaction(txs[i], blockHash))
    {
      ShippedTxsValue(p, s1, txs, blockHash, i);
    }
    B.BlockRoundTrip(b, []);
    assert B.FullBytes(b) + [] == B.FullBytes(b);
    ReadAllShippedIff(p, after, txs, blockHash);
  }

  /**
   A block that lists a user transaction whose two suffix hashes differ never comes back as it was put,
   whatever its hash and whatever the tables held.
   */
  lemma UserTransactionLost(p: Primitives, s: Store, b: B.Block, txs: seq<ChainTx>, i: nat)
    requires Coherent(p, b, txs) && i < |txs| && txs[i].User?
    requires txs[i].suffix.signatureHash != txs[i].suffix.rangeProofHash
    ensures ReadBlock(AfterShippedPut(p, s, b, txs), B.Hash(p, b)) != Ok((b, txs))
  {
    hide *;
    ShippedPutThenGetIff(p, s, b, txs);
    OneLost(txs, i, B.Hash(p, b));
  }

  lemma OneLost(txs: seq<ChainTx>, i: nat, blockHash: Key)
    requires i < |txs| && txs[i].User? && txs[i].suffix.signatureHash != txs[i].suffix.rangeProofHash
    ensures !AllSurvive(txs, blockHash)
  {
    hide SurvivesReading;
    if SurvivesReading(txs[i], blockHash) {
      SurvivingUser(txs[i], blockHash);
    }
  }

  // ---------------------------------------------------------------- outputs as shipped

  /** Every stored output is an acceptable one, free from the start, as the writers lay it out. */
  ghost predicate ShippedFreeOutputs(p: Primitives, s: Store) {
    forall k :: Entry(TRANSACTION_OUTPUTS, k) in s ==> exists o ::
      CheckOutput(o) == SUCCESS && k == Tx.OutputHash(p, o) && s[Entry(TRANSACTION_OUTPUTS, k)] == WrittenOutput(o, 0)
  }

  /** No two outputs have the hash `k`. */
  ghost predicate NoOutputCollision(p: Primitives, k: Data) {
    forall o, q :: Tx.OutputHash(p, o) == k && Tx.OutputHash(p, q) == k ==> o == q
  }

  /**
   An output with a small unlock block, read in the other layout, is the same output only if its encoding
   repeats that one byte throughout.
   */
  lemma SameOutputRead(o: Tx.Output, unlockBlock: byte)
    requires unlockBlock < 0x80
    requires ParseStoredOutput(WrittenOutput(o, unlockBlock)).Ok?
    requires ParseStoredOutput(WrittenOutput(o, unlockBlock)).value.0 == o
    ensures forall i :: 0 <= i < |Tx.EncodeOutput(o)| ==> Tx.EncodeOutput(o)[i] == unlockBlock
  {
    hide Tx.EncodeOutput;
    hide Tx.DecodeOutput;
    var x, e: Data := WrittenOutput(o, unlockBlock), Tx.EncodeOutput(o);
    assert EncodeVarint(unlockBlock) == [unlockBlock];
    OutputShortest(x);
    var rest := Tx.DecodeOutput(x).value.1;
    assert |rest| >= 1;
    assert x == e + rest && |rest| == 1;
    ShiftedByOne(unlockBlock, e, rest[0], |e|);
  }

  lemma {:induction false} ShiftedByOne(u: byte, e: Data, last: byte, n: nat)
    requires [u] + e == e + [last] && n <= |e|
    ensures forall i :: 0 <= i < n ==> e[i] == u
  {
    if n > 0 {
      ShiftedByOne(u, e, last, n - 1);
      assert ([u] + e)[n - 1] == (e + [last])[n - 1];
    }
  }

  /** As shipped, and where output hashes do not collide, no stored output that is free is ever drawn. */
  lemma ShippedOutputsNeverDrawn(p: Primitives, s: Store, blockIndex: uint64, draws: seq<Key>)
    requires ShippedFreeOutputs(p, s)
    requires forall k :: Entry(TRANSACTION_OUTPUTS, k) in s ==> NoOutputCollision(p, k)
    ensures DrawnKeys(p, s, blockIndex, draws) == {}
  {
    hide Tx.OutputHash;
    hide ParseStoredOutput;
    hide WrittenOutput;
    hide CheckOutput;
    forall k | k in DrawnKeys(p, s, blockIndex, draws) ensures false {
      var o :| CheckOutput(o) == SUCCESS && k == Tx.OutputHash(p, o) &&
        s[Entry(TRANSACTION_OUTPUTS, k)] == WrittenOutput(o, 0);
      assert NoOutputCollision(p, k);
      ReadAsAnother(o);
    }
  }

  lemma ReadAsAnother(o: Tx.Output)
    requires CheckOutput(o) == SUCCESS
    ensures ParseStoredOutput(WrittenOutput(o, 0)).Ok? ==> ParseStoredOutput(WrittenOutput(o, 0)).value.0 != o
  {
    hide ParseStoredOutput;
    hide WrittenOutput;
    if ParseStoredOutput(WrittenOutput(o, 0)).Ok? && ParseStoredOutput(WrittenOutput(o, 0)).value.0 == o {
      SameOutputRead(o, 0);
      AllZeroBytes(o);
    }
  }

  /** What a shipped put leaves when its outputs are acceptable and free from the start. */
  lemma {:induction false} FreeOutputsStay(p: Primitives, s: Store, ws: seq<Write>)
    requires ShippedFreeOutputs(p, s) && forall i :: 0 <= i < |ws| ==> FreeWrite(p, ws[i])
    ensures ShippedFreeOutputs(p, PutAll(s, ws))
  {
    hide Tx.OutputHash;
    hide WrittenOutput;
    hide CheckOutput;
    if ws != [] {
      FreeOutputsStay(p, s, ws[..|ws| - 1]);
      assert FreeWrite(p, ws[|ws| - 1]);
    }
  }

  /** A write that is no output, or an acceptable one that is free from the start. */
  ghost predicate FreeWrite(p: Primitives, w: Write) {
    w.entry.table == TRANSACTION_OUTPUTS ==> exists o ::
      CheckOutput(o) == SUCCESS && w.entry.key == Tx.OutputHash(p, o) && w.value == WrittenOutput(o, 0)
  }

  /** Transactions whose outputs are acceptable and free from the start. */
  predicate FreeOutputs(tx: ChainTx) {
    tx.UnlockBlock() == 0 && forall i | 0 <= i < |tx.NewOutputs()| :: CheckOutput(tx.NewOutputs()[i]) == SUCCESS
  }

  lemma FreeTxWrites(p: Primitives, tx: ChainTx, blockHash: Key)
    requires FreeOutputs(tx)
    ensures forall i :: 0 <= i < |ShippedTxWrites(p, tx, blockHash)| ==>
      FreeWrite(p, ShippedTxWrites(p, tx, blockHash)[i])
  {
    hide Tx.OutputHash;
    hide Tx.Hash;
    hide WrittenOutput;
    hide WrittenTransaction;
    hide CheckOutput;
  }

  lemma {:induction false} FreeTxsWrites(p: Primitives, txs: seq<ChainTx>, blockHash: Key)
    requires forall i :: 0 <= i < |txs| ==> FreeOutputs(txs[i])
    ensures forall i :: 0 <= i < |ShippedTxsWrites(p, txs, blockHash)| ==>
      FreeWrite(p, ShippedTxsWrites(p, txs, blockHash)[i])
  {
    hide ShippedTxWrites;
    hide FreeWrite;
    hide FreeOutputs;
    if txs != [] {
      FreeTxsWrites(p, txs[..|txs| - 1], blockHash);
      FreeTxWrites(p, txs[|txs| - 1], blockHash);
    }
  }

  /** Putting blocks of such transactions as shipped never makes a store from which anything can be drawn. */
  lemma ShippedPutKeepsFree(p: Primitives, s: Store, b: B.Block, txs: seq<ChainTx>)
    requires ShippedFreeOutputs(p, s) && FreeOutputs(b.reward) && forall i :: 0 <= i < |txs| ==> FreeOutputs(txs[i])
    ensures ShippedFreeOutputs(p, AfterShippedPut(p, s, b, txs))
  {
    hide ShippedTxWrites;
    hide ShippedTxsWrites;
    hide ShippedFreeOutputs;
    hide FreeOutputs;
    hide PutAll;
    hide B.Hash;
    hide B.FullBytes;
    hide WrittenOutput;
    hide Tx.OutputHash;
    var blockHash := B.Hash(p, b);
    var ws := ShippedTxWrites(p, b.reward, blockHash) + ShippedTxsWrites(p, txs, blockHash) + HeaderWrites(p, b);
    FreeTxWrites(p, b.reward, blockHash);
    FreeTxsWrites(p, txs, blockHash);
    FreeOutputsStay(p, s, ws);
  }
}
