/**
 Reading back what a block wrote: the sanity check on transaction order, and put-then-get through the
 byte encodings.
 */
module ReadBack {
  import opened Bytes
  import opened Collections
  import opened Crypto
  import opened Errors
  import opened Ordering
  import opened Lmdb
  import opened Tables
  import Tx = Transactions
  import B = Blocks

  /** The block and its transactions belong together and survive being written and read. */
  ghost predicate Coherent(p: Primitives, b: B.Block, txs: seq<ChainTx>) {
    && b.WellFormed()
    && b.transactions == TxHashes(p, txs)
    && forall i :: 0 <= i < |txs| ==> txs[i].Tagged()
  }

  // ---------------------------------------------------------------- the order check

  lemma KeyListInjective(a: seq<Key>, b: seq<Key>)
    requires |a| == |b| && EncodeAll(Tx.EncodeKey, a) == EncodeAll(Tx.EncodeKey, b)
    ensures a == b
  {
    Tx.KeysInverse();
    AllRoundTrip(Tx.EncodeKey, DecodeKey, a, []);
    AllRoundTrip(Tx.EncodeKey, DecodeKey, b, []);
  }

  /**
   Unless the hash function collides on the two lists at hand, the check passes exactly when the
   transactions are those of the block, in the order of the block.
   */
  lemma CheckPutExact(p: Primitives, b: B.Block, txs: seq<ChainTx>)
    requires HashOfHashes(p, b.transactions) == HashOfHashes(p, TxHashes(p, txs)) ==>
      EncodeAll(Tx.EncodeKey, b.transactions) == EncodeAll(Tx.EncodeKey, TxHashes(p, txs))
    ensures CheckPut(p, b, txs) == SUCCESS <==> b.transactions == TxHashes(p, txs)
    ensures CheckPut(p, b, txs) != SUCCESS ==>
      CheckPut(p, b, txs) == if |txs| != |b.transactions| then BLOCK_TXN_MISMATCH else BLOCK_TXN_ORDER
  {
    hide Tx.Hash;
    if CheckPut(p, b, txs) == SUCCESS {
      KeyListInjective(b.transactions, TxHashes(p, txs));
    }
  }

  /** Transaction hashes of a well-formed block never repeat. */
  lemma HashesDistinct(p: Primitives, b: B.Block, txs: seq<ChainTx>)
    requires Coherent(p, b, txs)
    ensures Distinct(TxHashes(p, txs))
  {
    hide Tx.Hash;
    forall i, j | 0 <= i < j < |txs| ensures TxHashes(p, txs)[i] != TxHashes(p, txs)[j] {
      assert Less(Tx.EncodeKey(b.transactions[i]), Tx.EncodeKey(b.transactions[j]));
      LessIrreflexive(b.transactions[i]);
    }
  }

  // ---------------------------------------------------------------- reading

  /** The stored bytes name the block and give back the transaction, as the variant it was. */
  lemma StoredTransactionReadsBack(tx: ChainTx, blockHash: Key)
    requires tx.Tagged()
    ensures ParseStoredTransaction(StoredTransaction(tx, blockHash)) == Ok((tx, blockHash))
  {
    hide Tx.Encode;
    hide Tx.Decode;
    KeyRoundTrip(blockHash, Tx.Encode(tx));
    Tx.TransactionRoundTrip(tx, []);
    assert Tx.Encode(tx) + [] == Tx.Encode(tx);
  }

  lemma StoredOutputReadsBack(o: Tx.Output, unlockBlock: uint64)
    ensures ParseStoredOutput(StoredOutput(o, unlockBlock)) == Ok((o, unlockBlock))
  {
    Tx.OutputRoundTrip(o, EncodeVarint(unlockBlock));
    Uint64RoundTrip(unlockBlock, []);
    assert EncodeVarint(unlockBlock) + [] == EncodeVarint(unlockBlock);
  }

  ghost predicate Holds(s: Store, e: Entry, v: Data) {
    e in s && s[e] == v
  }

  ghost predicate HoldsTransactions(p: Primitives, s: Store, txs: seq<ChainTx>, blockHash: Key) {
    forall i :: 0 <= i < |txs| ==> Holds(s, TransactionEntry(p, txs[i]), StoredTransaction(txs[i], blockHash))
  }

  lemma {:induction false} ReadAllBack(p: Primitives, s: Store, txs: seq<ChainTx>, blockHash: Key)
    requires forall i :: 0 <= i < |txs| ==> txs[i].Tagged()
    requires HoldsTransactions(p, s, txs, blockHash)
    ensures ReadAll(s, TxHashes(p, txs)) == Ok(txs)
  {
    hide Tx.Hash;
    hide StoredTransaction;
    hide ParseStoredTransaction;
    if txs != [] {
      var front, last := txs[..|txs| - 1], txs[|txs| - 1];
      assert TxHashes(p, txs)[..|txs| - 1] == TxHashes(p, front);
      ReadAllBack(p, s, front, blockHash);
      StoredTransactionReadsBack(last, blockHash);
      assert Holds(s, TransactionEntry(p, last), StoredTransaction(last, blockHash));
      assert txs == front + [last];
    }
  }

  lemma ReadBlockBack(p: Primitives, s: Store, b: B.Block, txs: seq<ChainTx>)
    requires Coherent(p, b, txs)
    requires Holds(s, Entry(BLOCKS, B.Hash(p, b)), B.FullBytes(b))
    requires HoldsTransactions(p, s, txs, B.Hash(p, b))
    ensures ReadBlock(s, B.Hash(p, b)) == Ok((b, txs))
  {
    hide Tx.Hash;
    hide B.FullBytes;
    hide B.Decode;
    hide StoredTransaction;
    hide ReadAll;
    B.BlockRoundTrip(b, []);
    assert B.FullBytes(b) + [] == B.FullBytes(b);
    ReadAllBack(p, s, txs, B.Hash(p, b));
  }

  lemma ReadBlockAtBack(p: Primitives, s: Store, b: B.Block, txs: seq<ChainTx>)
    requires Coherent(p, b, txs)
    requires Holds(s, Entry(BLOCKS, B.Hash(p, b)), B.FullBytes(b))
    requires Holds(s, Entry(BLOCK_INDEXES, Index(b.index)), B.Hash(p, b))
    requires HoldsTransactions(p, s, txs, B.Hash(p, b))
    ensures ReadBlockAt(s, b.index) == Ok((b, txs))
  {
    hide B.Hash;
    hide B.FullBytes;
    hide ReadBlock;
    hide HoldsTransactions;
    ReadBlockBack(p, s, b, txs);
    KeyRoundTrip(B.Hash(p, b), []);
    assert B.Hash(p, b) + [] == B.Hash(p, b);
  }

  /**
   Reading a list of transactions: all of them in order, or the error of the first that cannot be read,
   which is a missing transaction unless the stored bytes do not parse.
   */
  lemma {:induction false} ReadAllIff(s: Store, hashes: seq<Key>)
    ensures ReadAll(s, hashes).Ok? ==>
      && |ReadAll(s, hashes).value| == |hashes|
      && forall i :: 0 <= i < |hashes| ==>
        ReadTransaction(s, hashes[i]).Ok? && ReadTransaction(s, hashes[i]).value.0 == ReadAll(s, hashes).value[i]
    ensures ReadAll(s, hashes).Err? ==> exists i ::
      && 0 <= i < |hashes| && ReadTransaction(s, hashes[i]).Err?
      && (forall j :: 0 <= j < i ==> ReadTransaction(s, hashes[j]).Ok?)
      && ReadAll(s, hashes).error ==
           if ReadTransaction(s, hashes[i]).error == READ_EXCEPTION then READ_EXCEPTION else DB_TRANSACTION_NOT_FOUND
  {
    hide ReadTransaction;
    if hashes != [] {
      var n := |hashes| - 1;
      ReadAllIff(s, hashes[..n]);
      assert forall i :: 0 <= i < n ==> hashes[..n][i] == hashes[i];
      if ReadAll(s, hashes[..n]).Ok? {
        assert ReadTransaction(s, hashes[n]).Err? ==> ReadAll(s, hashes).Err?;
      }
    }
  }

  /** A block is read exactly if it is stored, parses, and all its transactions are read. */
  lemma ReadBlockIff(s: Store, hash: Data)
    ensures Entry(BLOCKS, hash) !in s <==> ReadBlock(s, hash) == Err(DB_BLOCK_NOT_FOUND)
    ensures forall b, txs :: ReadBlock(s, hash) == Ok((b, txs)) <==>
      && Entry(BLOCKS, hash) in s && B.Decode(s[Entry(BLOCKS, hash)]).Some?
      && b == B.Decode(s[Entry(BLOCKS, hash)]).value.0
      && |txs| == |b.transactions|
      && forall i :: 0 <= i < |txs| ==>
        ReadTransaction(s, b.transactions[i]).Ok? && ReadTransaction(s, b.transactions[i]).value.0 == txs[i]
  {
    hide B.Decode;
    hide ReadAll;
    hide ReadTransaction;
    if Entry(BLOCKS, hash) in s {
      var decoded := B.Decode(s[Entry(BLOCKS, hash)]);
      if decoded.Some? {
        var hashes := decoded.value.0.transactions;
        ReadAllIff(s, hashes);
        forall txs: seq<ChainTx> | |txs| == |hashes| && forall i :: 0 <= i < |txs| ==>
                     ReadTransaction(s, hashes[i]).Ok? && ReadTransaction(s, hashes[i]).value.0 == txs[i]
          ensures ReadAll(s, hashes) == Ok(txs)
        {
          assert ReadAll(s, hashes).value == txs;
        }
      }
    }
  }

  // ---------------------------------------------------------------- put, then get

  lemma TxWritesValue(p: Primitives, s: Store, tx: ChainTx, blockHash: Key)
    ensures Holds(PutAll(s, TxWrites(p, tx, blockHash)), TransactionEntry(p, tx), StoredTransaction(tx, blockHash))
    ensures forall e :: e in Entries(TxWrites(p, tx, blockHash)) ==>
      e.table == KEY_IMAGES || e.table == TRANSACTION_OUTPUTS || e == TransactionEntry(p, tx)
  {
    hide Tx.Hash;
    hide Tx.OutputHash;
    hide StoredTransaction;
    hide StoredOutput;
    hide PutAll;
    PutAllLast(s, TxWrites(p, tx, blockHash), 0);
  }

  lemma {:induction false} TxsWritesValue(p: Primitives, s: Store, txs: seq<ChainTx>, blockHash: Key, i: nat)
    requires i < |txs| && Distinct(TxHashes(p, txs))
    ensures Holds(PutAll(s, TxsWrites(p, txs, blockHash)), TransactionEntry(p, txs[i]),
                  StoredTransaction(txs[i], blockHash))
  {
    hide Tx.Hash;
    hide TxWrites;
    hide StoredTransaction;
    hide PutAll;
    var front, last := txs[..|txs| - 1], txs[|txs| - 1];
    var s1 := PutAll(s, TxsWrites(p, front, blockHash));
    PutAllConcat(s, TxsWrites(p, front, blockHash), TxWrites(p, last, blockHash));
    TxWritesValue(p, s1, last, blockHash);
    if i < |txs| - 1 {
      assert TxHashes(p, front) == TxHashes(p, txs)[..|txs| - 1];
      TxsWritesValue(p, s, front, blockHash, i);
      assert TxHashes(p, txs)[i] != TxHashes(p, txs)[|txs| - 1];
      PutAllKeys(s1, TxWrites(p, last, blockHash));
    }
  }

  lemma HeaderValues(p: Primitives, s: Store, b: B.Block)
    ensures Holds(PutAll(s, HeaderWrites(p, b)), Entry(BLOCKS, B.Hash(p, b)), B.FullBytes(b))
    ensures Holds(PutAll(s, HeaderWrites(p, b)), Entry(BLOCK_INDEXES, Index(b.index)), B.Hash(p, b))
    ensures Holds(PutAll(s, HeaderWrites(p, b)), Entry(BLOCK_TIMESTAMPS, Index(b.timestamp)), B.Hash(p, b))
    ensures forall e :: e in s && e.table == TRANSACTIONS ==> Holds(PutAll(s, HeaderWrites(p, b)), e, s[e])
  {
    hide B.Hash;
    hide B.FullBytes;
    hide PutAll;
    var ws := HeaderWrites(p, b);
    PutAllLast(s, ws, 0);
    PutAllLast(s, ws, 1);
    PutAllLast(s, ws, 2);
    PutAllKeys(s, ws);
  }

  /**
   After a put, the block is found by its hash and by its index, with exactly its transactions in
   order, whatever the tables held before.
   */
  lemma PutThenGet(p: Primitives, s: Store, b: B.Block, txs: seq<ChainTx>)
    requires Coherent(p, b, txs)
    ensures ReadBlock(AfterPut(p, s, b, txs), B.Hash(p, b)) == Ok((b, txs))
    ensures ReadBlockAt(AfterPut(p, s, b, txs), b.index) == Ok((b, txs))
  {
    hide B.Hash;
    hide B.FullBytes;
    hide PutAll;
    hide TxWrites;
    hide TxsWrites;
    hide HeaderWrites;
    hide ReadBlock;
    hide ReadBlockAt;
    hide StoredTransaction;
    var blockHash := B.Hash(p, b);
    var s1 := PutAll(s, TxWrites(p, b.reward, blockHash));
    var s2 := PutAll(s1, TxsWrites(p, txs, blockHash));
    PutAllConcat(s, TxWrites(p, b.reward, blockHash), TxsWrites(p, txs, blockHash));
    PutAllConcat(s, TransactionWrites(p, b, txs), HeaderWrites(p, b));
    HashesDistinct(p, b, txs);
    HeaderValues(p, s2, b);
    forall i | 0 <= i < |txs|
      ensures Holds(AfterPut(p, s, b, txs), TransactionEntry(p, txs[i]), StoredTransaction(txs[i], blockHash))
    {
      TxsWritesValue(p, s1, txs, blockHash, i);
    }
    ReadBlockBack(p, AfterPut(p, s, b, txs), b, txs);
    ReadBlockAtBack(p, AfterPut(p, s, b, txs), b, txs);
  }
}
