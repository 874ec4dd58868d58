/**
 The storage operations as they run: write transactions filled step by step, and the retry that
 grows the map and starts over whenever LMDB reports that the map or the transaction is full.
 The retry loops may run for ever; an operation is watched for at most `patience` attempts, and is
 `Retrying` when that many attempts have all started over.
 */
module ChainStorage {
  import opened Bytes
  import opened Crypto
  import opened Environments
  import opened Errors
  import opened Ledger
  import opened Lmdb
  import opened Ordering
  import opened Retry
  import opened Tables
  import Tx = Transactions
  import B = Blocks

  /** After an error the steps not taken make no difference to what is reported. */
  lemma ReportsStops(txn: Transaction, e: ErrorCode, goal: seq<Operation>, more: seq<Operation>)
    requires txn.Reports(e, goal) && e != SUCCESS
    ensures txn.Reports(e, goal + more)
  {
    hide Perform;
    PerformStops(txn.env.answer, txn.env.mapSize, txn.base, txn.start, goal, more);
  }

  class BlockchainStorage {
    const p: Primitives
    const env: Environment

    constructor (p: Primitives, env: Environment)
      ensures this.p == p && this.env == env
    {
      this.p, this.env := p, env;
    }

    // -------------------------------------------------------------- writing

    method PutKeyImages(txn: Transaction, ks: seq<Key>) returns (e: ErrorCode)
      requires txn.Open()
      modifies txn`working, txn`ops, txn`table, txn.env`calls
      ensures txn.Reports(e, old(txn.ops) + PutOps(KeyImageWrites(ks)))
    {
      hide Perform;
      e := SUCCESS;
      ghost var before, all := txn.ops, PutOps(KeyImageWrites(ks));
      for i := 0 to |ks|
        invariant txn.Open() && txn.ops == before + all[..i]
      {
        txn.SetDatabase(KEY_IMAGES);
        e := txn.Put(ks[i], []);
        assert before + all[..i] + [all[i]] == before + all[..i + 1];
        if e != SUCCESS {
          ReportsStops(txn, e, before + all[..i + 1], all[i + 1..]);
          assert before + all[..i + 1] + all[i + 1..] == before + all;
          return;
        }
      }
      e := SUCCESS;
      assert all[..|ks|] == all;
    }

    method PutOutputs(txn: Transaction, os: seq<Tx.Output>, unlockBlock: uint64) returns (e: ErrorCode)
      requires txn.Open()
      modifies txn`working, txn`ops, txn`table, txn.env`calls
      ensures txn.Reports(e, old(txn.ops) + PutOps(OutputWrites(p, os, unlockBlock)))
    {
      hide Perform;
      hide Tx.OutputHash;
      hide StoredOutput;
      e := SUCCESS;
      ghost var before, all := txn.ops, PutOps(OutputWrites(p, os, unlockBlock));
      for i := 0 to |os|
        invariant txn.Open() && txn.ops == before + all[..i]
      {
        txn.SetDatabase(TRANSACTION_OUTPUTS);
        e := txn.Put(Tx.OutputHash(p, os[i]), StoredOutput(os[i], unlockBlock));
        assert all[i] == Putting(OutputWrite(p, os[i], unlockBlock));
        assert before + all[..i] + [all[i]] == before + all[..i + 1];
        if e != SUCCESS {
          ReportsStops(txn, e, before + all[..i + 1], all[i + 1..]);
          assert before + all[..i + 1] + all[i + 1..] == before + all;
          return;
        }
      }
      e := SUCCESS;
      assert all[..|os|] == all;
    }

    /** The transaction, its key images, its outputs. */
    method PutTransaction(txn: Transaction, tx: ChainTx, blockHash: Key) returns (e: ErrorCode)
      requires txn.Open()
      modifies txn`working, txn`ops, txn`table, txn.env`calls
      ensures txn.Reports(e, old(txn.ops) + PutOps(TxWrites(p, tx, blockHash)))
    {
      hide Perform;
      hide PutOps;
      hide KeyImageWrites;
      hide OutputWrites;
      hide Tx.Hash;
      hide StoredTransaction;
      ghost var before := txn.ops;
      ghost var ws := [Write(TransactionEntry(p, tx), StoredTransaction(tx, blockHash))];
      ghost var ks, os := KeyImageWrites(tx.KeyImages()), OutputWrites(p, tx.NewOutputs(), tx.UnlockBlock());
      PutOpsConcat(ws + ks, os);
      PutOpsConcat(ws, ks);
      assert PutOps(ws) == [Putting(ws[0])];
      assert before + (PutOps(ws) + PutOps(ks) + PutOps(os)) == before + PutOps(ws) + PutOps(ks) + PutOps(os);
      txn.SetDatabase(TRANSACTIONS);
      e := txn.Put(Tx.Hash(p, tx), StoredTransaction(tx, blockHash));
      if e != SUCCESS {
        ReportsStops(txn, e, before + PutOps(ws), PutOps(ks));
        ReportsStops(txn, e, before + PutOps(ws) + PutOps(ks), PutOps(os));
        return;
      }
      e := PutKeyImages(txn, tx.KeyImages());
      if e != SUCCESS {
        ReportsStops(txn, e, before + PutOps(ws) + PutOps(ks), PutOps(os));
        return;
      }
      e := PutOutputs(txn, tx.NewOutputs(), tx.UnlockBlock());
    }

    method PutTransactions(txn: Transaction, txs: seq<ChainTx>, blockHash: Key) returns (e: ErrorCode)
      requires txn.Open()
      modifies txn`working, txn`ops, txn`table, txn.env`calls
      ensures txn.Reports(e, old(txn.ops) + PutOps(TxsWrites(p, txs, blockHash)))
    {
      hide Perform;
      hide PutOps;
      hide TxWrites;
      e := SUCCESS;
      ghost var before := txn.ops;
      assert before + PutOps([]) == before;
      for i := 0 to |txs|
        invariant txn.Open() && txn.ops == before + PutOps(TxsWrites(p, txs[..i], blockHash))
      {
        e := PutTransaction(txn, txs[i], blockHash);
        assert txs[..i + 1][..i] == txs[..i];
        PutOpsConcat(TxsWrites(p, txs[..i], blockHash), TxWrites(p, txs[i], blockHash));
        assert before + PutOps(TxsWrites(p, txs[..i], blockHash)) + PutOps(TxWrites(p, txs[i], blockHash)) ==
          before + PutOps(TxsWrites(p, txs[..i + 1], blockHash));
        if e != SUCCESS {
          RestOfTransactions(txn, e, before, txs, blockHash, i + 1);
          return;
        }
      }
      e := SUCCESS;
      assert txs[..|txs|] == txs;
    }

    ghost method RestOfTransactions(txn: Transaction, e: ErrorCode, before: seq<Operation>, txs: seq<ChainTx>,
                                    blockHash: Key, i: nat)
      requires i <= |txs| && e != SUCCESS
      requires txn.Reports(e, before + PutOps(TxsWrites(p, txs[..i], blockHash)))
      ensures txn.Reports(e, before + PutOps(TxsWrites(p, txs, blockHash)))
    {
      hide Perform;
      hide PutOps;
      hide TxWrites;
      var a, b := TxsWrites(p, txs[..i], blockHash), TxsWrites(p, txs[i..], blockHash);
      TxsWritesConcat(p, txs[..i], txs[i..], blockHash);
      assert txs[..i] + txs[i..] == txs;
      PutOpsConcat(a, b);
      ReportsStops(txn, e, before + PutOps(a), PutOps(b));
      assert before + PutOps(a) + PutOps(b) == before + (PutOps(a) + PutOps(b));
    }

    /** The block, its index, its timestamp. */
    method PutHeader(txn: Transaction, b: B.Block) returns (e: ErrorCode)
      requires txn.Open()
      modifies txn`working, txn`ops, txn`table, txn.env`calls
      ensures txn.Reports(e, old(txn.ops) + PutOps(HeaderWrites(p, b)))
    {
      hide Perform;
      hide B.Hash;
      hide B.FullBytes;
      var blockHash := B.Hash(p, b);
      ghost var before, all := txn.ops, PutOps(HeaderWrites(p, b));
      assert before + [all[0]] + [all[1]] + [all[2]] == before + all;
      txn.SetDatabase(BLOCKS);
      e := txn.Put(blockHash, B.FullBytes(b));
      if e != SUCCESS {
        ReportsStops(txn, e, before + [all[0]], [all[1]]);
        ReportsStops(txn, e, before + [all[0]] + [all[1]], [all[2]]);
        return;
      }
      txn.SetDatabase(BLOCK_INDEXES);
      e := txn.Put(Index(b.index), blockHash);
      if e != SUCCESS {
        ReportsStops(txn, e, before + [all[0]] + [all[1]], [all[2]]);
        return;
      }
      txn.SetDatabase(BLOCK_TIMESTAMPS);
      e := txn.Put(Index(b.timestamp), blockHash);
    }

    /** Every write of a block, then the commit; the first error ends the attempt. */
    method WriteBlock(txn: Transaction, b: B.Block, txs: seq<ChainTx>) returns (e: ErrorCode)
      requires txn.Open() && txn.ops == [] && txn.base == txn.env.store
      modifies txn, txn.env`calls, txn.env`store, txn.env`openTxns, txn.env`writers
      ensures txn.Counted() && txn.env.writers == old(txn.env.writers) - if txn.live then {} else {txn}
      ensures Outcome(e, txn.env.store, txn.env.calls) ==
        Attempt(txn.env.answer, old(txn.env.World()).(calls := txn.start), PutOps(BlockWrites(p, b, txs)))
    {
      hide Perform;
      hide PutOps;
      hide TxWrites;
      hide TxsWrites;
      hide HeaderWrites;
      hide B.Hash;
      hide Environment.Growth;
      hide Environment.Pages;
      hide Environment.Valid;
      var blockHash := B.Hash(p, b);
      ghost var r, ts, h := TxWrites(p, b.reward, blockHash), TxsWrites(p, txs, blockHash), HeaderWrites(p, b);
      PutOpsConcat(r + ts, h);
      PutOpsConcat(r, ts);
      assert [] + PutOps(r) == PutOps(r);
      e := PutTransaction(txn, b.reward, blockHash);
      if e != SUCCESS {
        ReportsStops(txn, e, PutOps(r), PutOps(ts));
        ReportsStops(txn, e, PutOps(r) + PutOps(ts), PutOps(h));
        return;
      }
      e := PutTransactions(txn, txs, blockHash);
      if e != SUCCESS {
        ReportsStops(txn, e, PutOps(r) + PutOps(ts), PutOps(h));
        return;
      }
      e := PutHeader(txn, b);
      if e != SUCCESS {
        return;
      }
      e := txn.Commit();
    }

    /**
     The retry macro: after a full result the transaction is aborted and the map grown; `again` when
     that worked.
     */
    method CheckExpand(txn: Transaction, e: ErrorCode) returns (again: bool)
      requires txn.env == env && txn.Counted()
      modifies txn`live, env`openTxns, env`writers, env`mapSize, env`calls
      ensures txn.Counted()
      ensures env.writers == old(env.writers) - if e in {LMDB_MAP_FULL, LMDB_TXN_FULL} then {txn} else {}
      ensures e !in {LMDB_MAP_FULL, LMDB_TXN_FULL} || env.writers != {} ==> !again && env.World() == old(env.World())
      ensures e in {LMDB_MAP_FULL, LMDB_TXN_FULL} && env.writers == {} ==>
        && again == (env.resize(old(env.calls), old(env.mapSize)) == SUCCESS)
        && env.mapSize == old(env.mapSize) + (if again then env.Growth() else 0) && env.calls == old(env.calls) + 1
    {
      hide Perform;
      hide Environment.Growth;
      hide Environment.Pages;
      hide Environment.Valid;
      if !IsFull(e) {
        return false;
      }
      txn.Abort();
      var expanded := env.Expand();
      again := expanded == SUCCESS;
    }

    /** The macro, and the abort when the transaction goes out of scope. */
    method Settle(txn: Transaction, e: ErrorCode) returns (again: bool)
      requires txn.env == env && txn.Counted()
      modifies txn`live, env`openTxns, env`writers, env`mapSize, env`calls
      ensures env.Valid() && env.writers == old(env.writers) - {txn}
      ensures Turned(e, again, env.World()) ==
        Conclude(env.Lm(), old(env.writers) - {txn} == {}, old(env.mapSize), Outcome(e, env.store, old(env.calls)))
    {
      hide Environment.Growth;
      hide Environment.Pages;
      hide Environment.Valid;
      hide Perform;
      again := CheckExpand(txn, e);
      txn.Abort();
    }

    /** One turn of the loop of `put_block`. */
    method TryPut(b: B.Block, txs: seq<ChainTx>) returns (e: ErrorCode, again: bool)
      requires env.Valid()
      modifies env
      ensures env.Valid() && env.writers == old(env.writers)
      ensures Turned(e, again, env.World()) ==
        Turn(env.Lm(), old(env.writers) == {}, old(env.World()), PutOps(BlockWrites(p, b, txs)))
    {
      hide BlockWrites;
      hide PutOps;
      hide Attempt;
      hide Conclude;
      hide Perform;
      hide Environment.Growth;
      hide Environment.Pages;
      hide Environment.Valid;
      var txn := new Transaction(env);
      e := WriteBlock(txn, b, txs);
      assert env.writers - {txn} == old(env.writers);
      again := Settle(txn, e);
    }

    /**
     The outcome is exactly that of the value-level loop. All or nothing for every pattern of failures:
     success means the tables hold what one undisturbed run would have written, anything else that they
     are untouched. The transaction counter returns to what it was.
     */
    method PutBlock(b: B.Block, txs: seq<ChainTx>, patience: nat) returns (r: Progress, rounds: nat)
      requires env.Valid()
      modifies env
      ensures env.Valid() && env.writers == old(env.writers)
      ensures CheckPut(p, b, txs) != SUCCESS ==>
        r == Returned(CheckPut(p, b, txs)) && rounds == 0 && env.World() == old(env.World())
      ensures CheckPut(p, b, txs) == SUCCESS ==> (Watched(r, rounds, env.World()) ==
        Loop(env.Lm(), old(env.writers) == {}, old(env.World()), PutOps(BlockWrites(p, b, txs)), patience))
      ensures env.store == if r == Returned(SUCCESS) then AfterPut(p, old(env.store), b, txs) else old(env.store)
      ensures r == Returned(SUCCESS) ==> Deposited(p, old(env.store), [b.reward] + txs, env.store)
      ensures env.mapSize == old(env.mapSize) + rounds * env.Growth()
      ensures CheckPut(p, b, txs) == SUCCESS && Benign(env.Lm()) && old(env.writers) == {} && r.Returned? ==>
        r == Returned(SUCCESS)
    {
      hide BlockWrites;
      hide CheckPut;
      hide Turn;
      hide PutAll;
      hide Deposited;
      PutDeposits(p, env.store, b, txs);
      var e := CheckPut(p, b, txs);
      if e != SUCCESS {
        return Returned(e), 0;
      }
      ghost var lm, alone, w, ops := env.Lm(), env.writers == {}, env.World(), PutOps(BlockWrites(p, b, txs));
      LoopLeaves(lm, alone, w, ops, patience);
      ApplyPuts(w.store, BlockWrites(p, b, txs));
      if Benign(lm) && alone && Loop(lm, true, w, ops, patience).progress.Returned? {
        BenignLoop(lm, w, ops, patience);
      }
      rounds := 0;
      while rounds < patience
        invariant env.Valid() && env.writers == old(env.writers) && rounds <= patience
        invariant Loop(lm, alone, w, ops, patience) ==
          LaterBy(rounds, Loop(lm, alone, env.World(), ops, patience - rounds))
      {
        var again;
        e, again := TryPut(b, txs);
        if !again {
          return Returned(e), rounds;
        }
        rounds := rounds + 1;
      }
      r := Retrying;
    }

    // -------------------------------------------------------------- reading

    method GetBlock(hash: Data) returns (r: Result<(B.Block, seq<ChainTx>)>)
      ensures r == ReadBlock(env.store, hash)
    {
      hide ReadMember;
      hide B.Decode;
      if Entry(BLOCKS, hash) !in env.store {
        return Err(DB_BLOCK_NOT_FOUND);
      }
      var decoded := B.Decode(env.store[Entry(BLOCKS, hash)]);
      if decoded.None? {
        return Err(READ_EXCEPTION);
      }
      var block := decoded.value.0;
      var transactions := [];
      for i := 0 to |block.transactions|
        invariant ReadAll(env.store, block.transactions[..i]) == Ok(transactions)
      {
        var member := ReadMember(env.store, block.transactions[i]);
        assert block.transactions[..i + 1][..i] == block.transactions[..i];
        if member.Err? {
          ReadAllFails(env.store, block.transactions, i + 1);
          return Err(member.error);
        }
        transactions := transactions + [member.value];
      }
      assert block.transactions[..|block.transactions|] == block.transactions;
      return Ok((block, transactions));
    }

    method GetBlockAt(index: uint64) returns (r: Result<(B.Block, seq<ChainTx>)>)
      ensures r == ReadBlockAt(env.store, index)
    {
      hide ReadBlock;
      if Entry(BLOCK_INDEXES, Index(index)) !in env.store {
        return Err(DB_BLOCK_NOT_FOUND);
      }
      var decoded := DecodeKey(env.store[Entry(BLOCK_INDEXES, Index(index))]);
      if decoded.None? {
        return Err(READ_EXCEPTION);
      }
      r := GetBlock(decoded.value.0);
    }

    // -------------------------------------------------------------- deleting

    /** Deletes entries of one table in order. */
    method DelKeys(txn: Transaction, table: Table, keys: seq<Data>, ghost es: seq<Entry>) returns (e: ErrorCode)
      requires txn.Open()
      requires |es| == |keys| && forall i :: 0 <= i < |keys| ==> es[i] == Entry(table, keys[i])
      modifies txn`working, txn`ops, txn`table, txn.env`calls
      ensures txn.Reports(e, old(txn.ops) + DelOps(es))
    {
      hide Perform;
      e := SUCCESS;
      ghost var before, all := txn.ops, DelOps(es);
      for i := 0 to |keys|
        invariant txn.Open() && txn.ops == before + all[..i]
      {
        txn.SetDatabase(table);
        e := txn.Del(keys[i]);
        assert before + all[..i] + [all[i]] == before + all[..i + 1];
        if e != SUCCESS {
          ReportsStops(txn, e, before + all[..i + 1], all[i + 1..]);
          assert before + all[..i + 1] + all[i + 1..] == before + all;
          return;
        }
      }
      e := SUCCESS;
      assert all[..|keys|] == all;
    }

    /** Key images, outputs, then the transaction itself. */
    method DelTransaction(txn: Transaction, tx: ChainTx) returns (e: ErrorCode)
      requires txn.Open()
      modifies txn`working, txn`ops, txn`table, txn.env`calls
      ensures txn.Reports(e, old(txn.ops) + DelOps(TxDeletes(p, tx)))
    {
      hide Perform;
      hide DelOps;
      hide Tx.Hash;
      hide Tx.OutputHash;
      hide StoredOutput;
      ghost var before := txn.ops;
      ghost var ks := Entries(KeyImageWrites(tx.KeyImages()));
      ghost var os := Entries(OutputWrites(p, tx.NewOutputs(), tx.UnlockBlock()));
      ghost var t := [TransactionEntry(p, tx)];
      DelOpsConcat(ks + os, t);
      DelOpsConcat(ks, os);
      assert before + (DelOps(ks) + DelOps(os) + DelOps(t)) == before + DelOps(ks) + DelOps(os) + DelOps(t);
      e := DelKeys(txn, KEY_IMAGES, tx.KeyImages(), ks);
      if e != SUCCESS {
        ReportsStops(txn, e, before + DelOps(ks), DelOps(os));
        ReportsStops(txn, e, before + DelOps(ks) + DelOps(os), DelOps(t));
        return;
      }
      e := DelKeys(txn, TRANSACTION_OUTPUTS, OutputHashes(p, tx.NewOutputs()), os);
      if e != SUCCESS {
        ReportsStops(txn, e, before + DelOps(ks) + DelOps(os), DelOps(t));
        return;
      }
      e := DelKeys(txn, TRANSACTIONS, [Tx.Hash(p, tx)], t);
    }

    method DelTransactions(txn: Transaction, txs: seq<ChainTx>) returns (e: ErrorCode)
      requires txn.Open()
      modifies txn`working, txn`ops, txn`table, txn.env`calls
      ensures txn.Reports(e, old(txn.ops) + DelOps(TxsDeletes(p, txs)))
    {
      hide Perform;
      hide DelOps;
      hide TxDeletes;
      e := SUCCESS;
      ghost var before := txn.ops;
      assert before + DelOps([]) == before;
      for i := 0 to |txs|
        invariant txn.Open() && txn.ops == before + DelOps(TxsDeletes(p, txs[..i]))
      {
        e := DelTransaction(txn, txs[i]);
        assert txs[..i + 1][..i] == txs[..i];
        DelOpsConcat(TxsDeletes(p, txs[..i]), TxDeletes(p, txs[i]));
        assert before + DelOps(TxsDeletes(p, txs[..i])) + DelOps(TxDeletes(p, txs[i])) ==
          before + DelOps(TxsDeletes(p, txs[..i + 1]));
        if e != SUCCESS {
          RestOfDeletions(txn, e, before, txs, i + 1);
          return;
        }
      }
      e := SUCCESS;
      assert txs[..|txs|] == txs;
    }

    ghost method RestOfDeletions(txn: Transaction, e: ErrorCode, before: seq<Operation>, txs: seq<ChainTx>, i: nat)
      requires i <= |txs| && e != SUCCESS
      requires txn.Reports(e, before + DelOps(TxsDeletes(p, txs[..i])))
      ensures txn.Reports(e, before + DelOps(TxsDeletes(p, txs)))
    {
      hide Perform;
      hide DelOps;
      hide TxDeletes;
      var a, b := TxsDeletes(p, txs[..i]), TxsDeletes(p, txs[i..]);
      TxsDeletesConcat(p, txs[..i], txs[i..]);
      assert txs[..i] + txs[i..] == txs;
      DelOpsConcat(a, b);
      ReportsStops(txn, e, before + DelOps(a), DelOps(b));
      assert before + DelOps(a) + DelOps(b) == before + (DelOps(a) + DelOps(b));
    }

    /** Timestamp, index, then the block. */
    method DelHeader(txn: Transaction, b: B.Block) returns (e: ErrorCode)
      requires txn.Open()
      modifies txn`working, txn`ops, txn`table, txn.env`calls
      ensures txn.Reports(e, old(txn.ops) + DelOps(HeaderDeletes(p, b)))
    {
      hide Perform;
      hide DelOps;
      hide B.Hash;
      ghost var before, es := txn.ops, HeaderDeletes(p, b);
      ghost var t, i, h := es[..1], es[1..2], es[2..];
      assert es == t + i + h;
      DelOpsConcat(t + i, h);
      DelOpsConcat(t, i);
      assert before + (DelOps(t) + DelOps(i) + DelOps(h)) == before + DelOps(t) + DelOps(i) + DelOps(h);
      e := DelKeys(txn, BLOCK_TIMESTAMPS, [Index(b.timestamp)], t);
      if e != SUCCESS {
        ReportsStops(txn, e, before + DelOps(t), DelOps(i));
        ReportsStops(txn, e, before + DelOps(t) + DelOps(i), DelOps(h));
        return;
      }
      e := DelKeys(txn, BLOCK_INDEXES, [Index(b.index)], i);
      if e != SUCCESS {
        ReportsStops(txn, e, before + DelOps(t) + DelOps(i), DelOps(h));
        return;
      }
      e := DelKeys(txn, BLOCKS, [B.Hash(p, b)], h);
    }

    /** Every deletion of a block, then the commit; the first error ends the attempt. */
    method EraseBlock(txn: Transaction, b: B.Block, txs: seq<ChainTx>) returns (e: ErrorCode)
      requires txn.Open() && txn.ops == [] && txn.base == txn.env.store
      modifies txn, txn.env`calls, txn.env`store, txn.env`openTxns, txn.env`writers
      ensures txn.Counted() && txn.env.writers == old(txn.env.writers) - if txn.live then {} else {txn}
      ensures Outcome(e, txn.env.store, txn.env.calls) ==
        Attempt(txn.env.answer, old(txn.env.World()).(calls := txn.start), DelOps(BlockDeletes(p, b, txs)))
    {
      hide Perform;
      hide DelOps;
      hide TxsDeletes;
      hide HeaderDeletes;
      hide Environment.Growth;
      hide Environment.Pages;
      hide Environment.Valid;
      hide IsFull;
      ghost var ts, h := TxsDeletes(p, txs), HeaderDeletes(p, b);
      DelOpsConcat(ts, h);
      assert [] + DelOps(ts) == DelOps(ts);
      e := DelTransactions(txn, txs);
      if e != SUCCESS {
        ReportsStops(txn, e, DelOps(ts), DelOps(h));
        return;
      }
      e := DelHeader(txn, b);
      if e != SUCCESS {
        return;
      }
      e := txn.Commit();
    }

    /** One turn of the loop of `del_block`. */
    method TryErase(b: B.Block, txs: seq<ChainTx>) returns (e: ErrorCode, again: bool)
      requires env.Valid()
      modifies env
      ensures env.Valid() && env.writers == old(env.writers)
      ensures Turned(e, again, env.World()) ==
        Turn(env.Lm(), old(env.writers) == {}, old(env.World()), DelOps(BlockDeletes(p, b, txs)))
    {
      hide BlockDeletes;
      hide DelOps;
      hide Attempt;
      hide Conclude;
      hide Perform;
      hide Environment.Growth;
      hide Environment.Pages;
      hide Environment.Valid;
      var txn := new Transaction(env);
      e := EraseBlock(txn, b, txs);
      assert env.writers - {txn} == old(env.writers);
      again := Settle(txn, e);
    }

    /** Erases a block that has been read, retrying; exactly the value-level loop. */
    method EraseRetrying(b: B.Block, txs: seq<ChainTx>, patience: nat) returns (r: Progress, rounds: nat)
      requires env.Valid()
      modifies env
      ensures env.Valid() && env.writers == old(env.writers)
      ensures Watched(r, rounds, env.World()) ==
        Loop(env.Lm(), old(env.writers) == {}, old(env.World()), DelOps(BlockDeletes(p, b, txs)), patience)
    {
      hide BlockDeletes;
      hide Turn;
      ghost var lm, alone, w, ops := env.Lm(), env.writers == {}, env.World(), DelOps(BlockDeletes(p, b, txs));
      rounds := 0;
      while rounds < patience
        invariant env.Valid() && env.writers == old(env.writers) && rounds <= patience
        invariant Loop(lm, alone, w, ops, patience) ==
          LaterBy(rounds, Loop(lm, alone, env.World(), ops, patience - rounds))
      {
        var e, again := TryErase(b, txs);
        if !again {
          return Returned(e), rounds;
        }
        rounds := rounds + 1;
      }
      r := Retrying;
    }

    /**
     Deletes the block at an index with its transactions, all or nothing under every pattern of
     failures. Where nothing but a full map interferes, the outcome is exactly that of the undisturbed
     deletion, including the error of an entry that is not there.
     */
    method DelBlock(index: uint64, patience: nat) returns (r: Progress, rounds: nat)
      requires env.Valid()
      modifies env
      ensures env.Valid() && env.writers == old(env.writers)
      ensures ReadBlockAt(old(env.store), index).Err? ==>
        r == Returned(ReadBlockAt(old(env.store), index).error) && rounds == 0 && env.World() == old(env.World())
      ensures ReadBlockAt(old(env.store), index).Ok? ==>
        var (b, txs) := ReadBlockAt(old(env.store), index).value;
        Watched(r, rounds, env.World()) ==
          Loop(env.Lm(), old(env.writers) == {}, old(env.World()), DelOps(BlockDeletes(p, b, txs)), patience)
      ensures r == Returned(SUCCESS) ==> AfterDelete(p, old(env.store), index) == Ok(env.store)
      ensures r == Returned(SUCCESS) ==>
        && ReadBlockAt(old(env.store), index).Ok?
        && var (b, txs) := ReadBlockAt(old(env.store), index).value;
           Withdrawn(p, old(env.store), b, txs, env.store)
      ensures r != Returned(SUCCESS) ==> env.store == old(env.store)
      ensures env.mapSize == old(env.mapSize) + rounds * env.Growth()
      ensures Benign(env.Lm()) && old(env.writers) == {} && r.Returned? ==>
        r.error == ResultOf(AfterDelete(p, old(env.store), index))
    {
      hide BlockDeletes;
      hide ReadBlockAt;
      hide Loop;
      hide DelAll;
      hide Apply;
      hide Withdrawn;
      var found := GetBlockAt(index);
      if found.Err? {
        return Returned(found.error), 0;
      }
      var (b, txs) := found.value;
      ghost var lm, alone, w, ops := env.Lm(), env.writers == {}, env.World(), DelOps(BlockDeletes(p, b, txs));
      LoopLeaves(lm, alone, w, ops, patience);
      ApplyDels(w.store, BlockDeletes(p, b, txs));
      if AfterDelete(p, env.store, index).Ok? {
        DeletionWithdraws(p, env.store, index);
      }
      if Benign(lm) && alone && Loop(lm, true, w, ops, patience).progress.Returned? {
        BenignLoop(lm, w, ops, patience);
      }
      r, rounds := EraseRetrying(b, txs, patience);
    }

    // -------------------------------------------------------------- rewinding

    /**
     Deletes the blocks numbered `top` down to `target + 1`, each in its own write transaction. An
     error, or running out of patience, leaves the store as after some whole number of these deletions.
     */
    method RewindFrom(top: nat, target: uint64, patience: nat) returns (r: Progress)
      requires env.Valid() && top < TWO_64
      modifies env
      ensures env.Valid() && env.writers == old(env.writers)
      ensures r == Returned(SUCCESS) ==> AfterRewind(p, old(env.store), top, target) == Ok(env.store)
      ensures r != Returned(SUCCESS) ==>
        exists stop: uint64 :: target < stop <= top && AfterRewind(p, old(env.store), top, stop) == Ok(env.store)
      ensures top > target && ReadBlockAt(old(env.store), top).Err? ==>
        r == Returned(ReadBlockAt(old(env.store), top).error) && env.World() == old(env.World())
      ensures Benign(env.Lm()) && old(env.writers) == {} && r.Returned? ==>
        var goal := AfterRewind(p, old(env.store), top, target);
        r.error == if goal.Ok? then SUCCESS else goal.error
    {
      hide AfterRewind;
      hide AfterDelete;
      hide ReadBlockAt;
      hide Benign;
      hide Loop;
      hide BlockDeletes;
      NothingToRewind(p, env.store, top, top);
      if top <= target {
        NothingToRewind(p, env.store, top, target);
        return Returned(SUCCESS);
      }
      var i := top;
      while i > target
        invariant env.Valid() && env.writers == old(env.writers)
        invariant target <= i <= top
        invariant AfterRewind(p, old(env.store), top, i) == Ok(env.store)
        invariant i == top ==> env.World() == old(env.World())
        invariant ReadBlockAt(old(env.store), top).Err? ==> i == top
      {
        RewindStep(p, old(env.store), env.store, top, i, target);
        var rounds;
        r, rounds := DelBlock(i, patience);
        if r != Returned(SUCCESS) {
          return;
        }
        i := i - 1;
      }
      r := Returned(SUCCESS);
    }

    /**
     As shipped: the loop starts at the number of stored blocks. When nothing is stored under that
     number the first deletion fails and nothing has changed.
     */
    method Rewind(target: uint64, patience: nat) returns (r: Progress)
      requires env.Valid() && |TableKeys(env.store, BLOCKS)| < TWO_64
      modifies env
      ensures env.Valid() && env.writers == old(env.writers)
      ensures
        var count := |TableKeys(old(env.store), BLOCKS)|;
        && (r == Returned(SUCCESS) ==> RewindAsShipped(p, old(env.store), count, target) == Ok(env.store))
        && (r != Returned(SUCCESS) ==> StoppedEarly(p, old(env.store), count, target, env.store))
        && (Benign(env.Lm()) && old(env.writers) == {} && r.Returned? ==>
              r.error == ResultOf(RewindAsShipped(p, old(env.store), count, target)))
      ensures
        var count := |TableKeys(old(env.store), BLOCKS)|;
        Entry(BLOCK_INDEXES, Index(target)) !in old(env.store) ||
        (count > target && ReadBlockAt(old(env.store), count).Err?) ==>
          r.Returned? && r.error == ResultOf(RewindAsShipped(p, old(env.store), count, target)) &&
          env.World() == old(env.World())
    {
      hide AfterRewind;
      hide ReadBlockAt;
      hide Benign;
      if Entry(BLOCK_INDEXES, Index(target)) !in env.store {
        return Returned(DB_BLOCK_NOT_FOUND);
      }
      var count := Count(env.store, BLOCKS);
      RewindMisses(p, env.store, count, target);
      r := RewindFrom(count, target, patience);
    }

    /** As intended: the loop starts at the tip of a chain numbered from 0. */
    method RewindFromTip(target: uint64, patience: nat) returns (r: Progress)
      requires env.Valid() && |TableKeys(env.store, BLOCKS)| < TWO_64
      modifies env
      ensures env.Valid() && env.writers == old(env.writers)
      ensures
        var count := |TableKeys(old(env.store), BLOCKS)|;
        var tip := if count == 0 then 0 else count - 1;
        && (r == Returned(SUCCESS) ==> RewindAsIntended(p, old(env.store), count, target) == Ok(env.store))
        && (r != Returned(SUCCESS) ==> StoppedEarly(p, old(env.store), tip, target, env.store))
        && (Benign(env.Lm()) && old(env.writers) == {} && r.Returned? ==>
              r.error == ResultOf(RewindAsIntended(p, old(env.store), count, target)))
      ensures Entry(BLOCK_INDEXES, Index(target)) !in old(env.store) ==>
        r == Returned(DB_BLOCK_NOT_FOUND) && env.World() == old(env.World())
    {
      hide AfterRewind;
      hide ReadBlockAt;
      hide Benign;
      if Entry(BLOCK_INDEXES, Index(target)) !in env.store {
        return Returned(DB_BLOCK_NOT_FOUND);
      }
      var count := Count(env.store, BLOCKS);
      r := RewindFrom(if count == 0 then 0 else count - 1, target, patience);
    }
  }

  /** `rounds` have gone before. */
  function LaterBy(rounds: nat, l: Watched): Watched {
    l.(rounds := l.rounds + rounds)
  }

  /** Nothing was deleted, or whole blocks from `top` down to above some `stop` beyond the target. */
  ghost predicate StoppedEarly(p: Primitives, before: Store, top: nat, target: uint64, after: Store)
    requires top < TWO_64
  {
    after == before ||
    exists stop: uint64 :: target < stop <= top && AfterRewind(p, before, top, stop) == Ok(after)
  }

  function ResultOf(r: Result<Store>): ErrorCode {
    match r
    case Ok(_) => SUCCESS
    case Err(e) => e
  }
}
