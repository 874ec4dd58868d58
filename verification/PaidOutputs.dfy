/**
 The output table: what a put makes of it, whatever it held before, and what a history leaves in it. Every
 put overwrites, so an output is stored with the unlock block of the last transaction that paid it.
 */
module PaidOutputs {
  import opened Bytes
  import opened Crypto
  import opened Errors
  import opened Lmdb
  import opened Tables
  import opened ReadBack
  import opened History
  import Tx = Transactions
  import B = Blocks

  // ---------------------------------------------------------------- what a transaction pays

  /** One of the outputs has this hash. */
  ghost predicate HasOutput(p: Primitives, os: seq<Tx.Output>, k: Data) {
    exists i :: 0 <= i < |os| && Tx.OutputHash(p, os[i]) == k
  }

  /** Of the outputs with this hash, `o` is the last. */
  ghost predicate LastOutput(p: Primitives, os: seq<Tx.Output>, k: Data, o: Tx.Output) {
    exists i :: 0 <= i < |os| && os[i] == o && Tx.OutputHash(p, o) == k &&
      forall j :: i < j < |os| ==> Tx.OutputHash(p, os[j]) != k
  }

  /** Some output of the transaction has this hash. */
  ghost predicate Pays(p: Primitives, tx: ChainTx, k: Data) {
    match tx
    case User(_, body, _, _) => HasOutput(p, body.outputs, k)
    case Genesis(_, _, outputs) => HasOutput(p, outputs, k)
    case StakeRefund(_, _, _, outputs) => HasOutput(p, outputs, k)
    case Staker(_, _, _) => false
  }

  /** The transaction pays `o`, which hashes to `k`, locked until the given block. */
  ghost predicate PaysOut(p: Primitives, tx: ChainTx, k: Data, o: Tx.Output, unlockBlock: uint64) {
    match tx
    case User(prefix, body, _, _) => unlockBlock == prefix.unlockBlock && LastOutput(p, body.outputs, k, o)
    case Genesis(prefix, _, outputs) => unlockBlock == prefix.unlockBlock && LastOutput(p, outputs, k, o)
    case StakeRefund(prefix, _, _, outputs) => unlockBlock == prefix.unlockBlock && LastOutput(p, outputs, k, o)
    case Staker(_, _, _) => false
  }

  /** Of the transactions that pay an output with hash `k`, the last one pays this. */
  ghost predicate LastPays(p: Primitives, txs: seq<ChainTx>, k: Data, o: Tx.Output, unlockBlock: uint64) {
    exists i :: 0 <= i < |txs| && PaysOut(p, txs[i], k, o, unlockBlock) &&
      forall j :: i < j < |txs| ==> !Pays(p, txs[j], k)
  }

  ghost predicate NonePays(p: Primitives, txs: seq<ChainTx>, k: Data) {
    forall i :: 0 <= i < |txs| ==> !Pays(p, txs[i], k)
  }

  // ---------------------------------------------------------------- what a put makes of the table

  lemma OutputsSnoc(p: Primitives, os: seq<Tx.Output>, k: Data)
    requires os != []
    ensures
      var front, last := os[..|os| - 1], os[|os| - 1];
      if Tx.OutputHash(p, last) == k then HasOutput(p, os, k) && forall o :: LastOutput(p, os, k, o) <==> o == last
      else
        && (HasOutput(p, os, k) <==> HasOutput(p, front, k))
        && forall o :: LastOutput(p, os, k, o) <==> LastOutput(p, front, k, o)
  {
    hide Tx.OutputHash;
    var n := |os| - 1;
    if Tx.OutputHash(p, os[n]) != k {
      if i :| 0 <= i < |os| && Tx.OutputHash(p, os[i]) == k {
        assert os[..n][i] == os[i];
      }
      forall o | LastOutput(p, os, k, o) ensures LastOutput(p, os[..n], k, o) {
        var i :| 0 <= i < |os| && os[i] == o && Tx.OutputHash(p, o) == k &&
          forall j :: i < j < |os| ==> Tx.OutputHash(p, os[j]) != k;
        assert os[..n][i] == os[i];
      }
      forall o | LastOutput(p, os[..n], k, o) ensures LastOutput(p, os, k, o) {
        var i :| 0 <= i < n && os[..n][i] == o && Tx.OutputHash(p, o) == k &&
          forall j :: i < j < n ==> Tx.OutputHash(p, os[..n][j]) != k;
        assert os[i] == o;
        assert forall j :: i < j < n ==> os[..n][j] == os[j];
      }
    }
  }

  lemma OneOutputWritten(p: Primitives, s: Store, o: Tx.Output, unlockBlock: uint64, k: Data)
    ensures
      var w := OutputWrite(p, o, unlockBlock);
      ReadOutput(s[w.entry := w.value], k) ==
        if Tx.OutputHash(p, o) == k then Ok((o, unlockBlock)) else ReadOutput(s, k)
  {
    hide Tx.OutputHash;
    hide StoredOutput;
    hide ParseStoredOutput;
    StoredOutputReadsBack(o, unlockBlock);
  }

  lemma {:induction false} OutputsWritten(p: Primitives, s: Store, os: seq<Tx.Output>, unlockBlock: uint64, k: Data)
    ensures !HasOutput(p, os, k) ==> ReadOutput(PutAll(s, OutputWrites(p, os, unlockBlock)), k) == ReadOutput(s, k)
    ensures HasOutput(p, os, k) ==> forall o, u ::
      ReadOutput(PutAll(s, OutputWrites(p, os, unlockBlock)), k) == Ok((o, u)) <==>
      LastOutput(p, os, k, o) && u == unlockBlock
  {
    hide Tx.OutputHash;
    hide StoredOutput;
    hide ReadOutput;
    hide OutputWrite;
    hide HasOutput;
    hide LastOutput;
    if os == [] {
      NoOutputs(p, k);
    } else {
      var ws, n := OutputWrites(p, os, unlockBlock), |os| - 1;
      OutputsWritten(p, s, os[..n], unlockBlock, k);
      assert ws[..n] == OutputWrites(p, os[..n], unlockBlock);
      assert ws[n] == OutputWrite(p, os[n], unlockBlock);
      OutputsSnoc(p, os, k);
      OneOutputWritten(p, PutAll(s, ws[..n]), os[n], unlockBlock, k);
    }
  }

  lemma NoOutputs(p: Primitives, k: Data)
    ensures !HasOutput(p, [], k) && forall o :: !LastOutput(p, [], k, o)
  {
  }

  lemma Untouched(s: Store, ws: seq<Write>, k: Data)
    requires forall i :: 0 <= i < |ws| ==> ws[i].entry.table != TRANSACTION_OUTPUTS
    ensures ReadOutput(PutAll(s, ws), k) == ReadOutput(s, k)
  {
    hide ParseStoredOutput;
    hide PutAll;
    PutAllKeys(s, ws);
    assert Entry(TRANSACTION_OUTPUTS, k) !in Entries(ws);
  }

  /** A transaction leaves its outputs with its unlock block in the table, and the other entries alone. */
  lemma TxOutputsWritten(p: Primitives, s: Store, tx: ChainTx, blockHash: Key, k: Data)
    ensures
      var after := PutAll(s, TxWrites(p, tx, blockHash));
      && (!Pays(p, tx, k) ==> ReadOutput(after, k) == ReadOutput(s, k))
      && (Pays(p, tx, k) ==> forall o, u: uint64 ::
            ReadOutput(after, k) == Ok((o, u)) <==> PaysOut(p, tx, k, o, u))
  {
    hide Tx.Hash;
    hide StoredTransaction;
    hide PutAll;
    hide ReadOutput;
    hide HasOutput;
    hide LastOutput;
    hide OutputWrites;
    var first := [Write(TransactionEntry(p, tx), StoredTransaction(tx, blockHash))] + KeyImageWrites(tx.KeyImages());
    PutAllConcat(s, first, OutputWrites(p, tx.NewOutputs(), tx.UnlockBlock()));
    Untouched(s, first, k);
    OutputsWritten(p, PutAll(s, first), tx.NewOutputs(), tx.UnlockBlock(), k);
    NoOutputs(p, k);
  }

  lemma LastPaysSnoc(p: Primitives, txs: seq<ChainTx>, k: Data)
    requires txs != []
    ensures
      var front, last := txs[..|txs| - 1], txs[|txs| - 1];
      && (NonePays(p, txs, k) <==> NonePays(p, front, k) && !Pays(p, last, k))
      && forall o, u: uint64 :: LastPays(p, txs, k, o, u) <==>
        PaysOut(p, last, k, o, u) || (LastPays(p, front, k, o, u) && !Pays(p, last, k))
  {
    hide Pays;
    hide PaysOut;
    var n := |txs| - 1;
    var front := txs[..n];
    assert forall i :: 0 <= i < n ==> front[i] == txs[i];
    forall o, u: uint64 | LastPays(p, txs, k, o, u)
      ensures PaysOut(p, txs[n], k, o, u) || (LastPays(p, front, k, o, u) && !Pays(p, txs[n], k))
    {
      var i :| 0 <= i < |txs| && PaysOut(p, txs[i], k, o, u) && forall j :: i < j < |txs| ==> !Pays(p, txs[j], k);
      if i < n {
        assert PaysOut(p, front[i], k, o, u);
      }
    }
    forall o, u: uint64 | PaysOut(p, txs[n], k, o, u) || (LastPays(p, front, k, o, u) && !Pays(p, txs[n], k))
      ensures LastPays(p, txs, k, o, u)
    {
      if !PaysOut(p, txs[n], k, o, u) {
        var i :| 0 <= i < n && PaysOut(p, front[i], k, o, u) && forall j :: i < j < n ==> !Pays(p, front[j], k);
        assert PaysOut(p, txs[i], k, o, u);
      }
    }
  }

  lemma PaysSomething(p: Primitives, tx: ChainTx, k: Data)
    ensures forall o, u: uint64 :: PaysOut(p, tx, k, o, u) ==> Pays(p, tx, k)
  {
    hide Tx.OutputHash;
  }

  lemma {:induction false} TxsOutputsWritten(p: Primitives, s: Store, txs: seq<ChainTx>, blockHash: Key, k: Data)
    ensures
      var after := PutAll(s, TxsWrites(p, txs, blockHash));
      && (NonePays(p, txs, k) ==> ReadOutput(after, k) == ReadOutput(s, k))
      && (!NonePays(p, txs, k) ==> forall o, u: uint64 ::
            ReadOutput(after, k) == Ok((o, u)) <==> LastPays(p, txs, k, o, u))
  {
    hide TxWrites;
    hide PutAll;
    hide ReadOutput;
    hide Pays;
    hide PaysOut;
    hide LastPays;
    if txs != [] {
      var n := |txs| - 1;
      var s1 := PutAll(s, TxsWrites(p, txs[..n], blockHash));
      TxsOutputsWritten(p, s, txs[..n], blockHash, k);
      PutAllConcat(s, TxsWrites(p, txs[..n], blockHash), TxWrites(p, txs[n], blockHash));
      TxOutputsWritten(p, s1, txs[n], blockHash, k);
      PaysSomething(p, txs[n], k);
      LastPaysSnoc(p, txs, k);
    } else {
      Untouched(s, [], k);
    }
  }

  // ---------------------------------------------------------------- blocks and histories

  /** The transactions of an item that wrote to the table: a removed block has left its reward. */
  function Payers(item: Item): seq<ChainTx> {
    [item.block.reward] + if item.Stored? then item.txs else []
  }

  lemma RewardFirst(p: Primitives, reward: ChainTx, txs: seq<ChainTx>, k: Data)
    ensures NonePays(p, [reward] + txs, k) <==> NonePays(p, txs, k) && !Pays(p, reward, k)
    ensures forall o, u: uint64 :: LastPays(p, [reward] + txs, k, o, u) <==>
      LastPays(p, txs, k, o, u) || (PaysOut(p, reward, k, o, u) && NonePays(p, txs, k))
  {
    hide Pays;
    hide PaysOut;
    var all := [reward] + txs;
    assert all[0] == reward && forall i :: 1 <= i < |all| ==> all[i] == txs[i - 1];
    assert forall i :: 0 <= i < |txs| ==> txs[i] == all[i + 1];
    forall o, u: uint64 | LastPays(p, all, k, o, u)
      ensures LastPays(p, txs, k, o, u) || (PaysOut(p, reward, k, o, u) && NonePays(p, txs, k))
    {
      var i :| 0 <= i < |all| && PaysOut(p, all[i], k, o, u) && forall j :: i < j < |all| ==> !Pays(p, all[j], k);
      if i > 0 {
        assert PaysOut(p, txs[i - 1], k, o, u);
      }
    }
    forall o, u: uint64 | LastPays(p, txs, k, o, u) ensures LastPays(p, all, k, o, u) {
      var i :| 0 <= i < |txs| && PaysOut(p, txs[i], k, o, u) && forall j :: i < j < |txs| ==> !Pays(p, txs[j], k);
      assert PaysOut(p, all[i + 1], k, o, u);
    }
    forall o, u: uint64 | PaysOut(p, reward, k, o, u) && NonePays(p, txs, k) ensures LastPays(p, all, k, o, u) {
      assert PaysOut(p, all[0], k, o, u);
    }
  }

  lemma ItemOutputsWritten(p: Primitives, s: Store, item: Item, k: Data)
    ensures
      var after := PutAll(s, ItemWrites(p, item));
      && (NonePays(p, Payers(item), k) ==> ReadOutput(after, k) == ReadOutput(s, k))
      && (!NonePays(p, Payers(item), k) ==> forall o, u: uint64 ::
            ReadOutput(after, k) == Ok((o, u)) <==> LastPays(p, Payers(item), k, o, u))
  {
    hide TxWrites;
    hide TxsWrites;
    hide PutAll;
    hide ReadOutput;
    hide Pays;
    hide PaysOut;
    hide LastPays;
    hide NonePays;
    hide B.Hash;
    hide B.FullBytes;
    var blockHash, reward := B.Hash(p, item.block), RewardWrites(p, item.block);
    var s1 := PutAll(s, reward);
    TxOutputsWritten(p, s, item.block.reward, blockHash, k);
    PaysSomething(p, item.block.reward, k);
    if item.Stored? {
      RewardFirst(p, item.block.reward, item.txs, k);
      LastOfSome(p, item.txs, k);
      var ts, header := TxsWrites(p, item.txs, blockHash), HeaderWrites(p, item.block);
      TxsOutputsWritten(p, s1, item.txs, blockHash, k);
      PutAllConcat(s, reward, ts + header);
      PutAllConcat(s1, ts, header);
      Untouched(PutAll(s1, ts), header, k);
    } else {
      RewardFirst(p, item.block.reward, [], k);
      LastOfSome(p, [], k);
      NobodyPays(p, k);
      assert reward + [] == reward;
    }
  }

  lemma NobodyPays(p: Primitives, k: Data)
    ensures NonePays(p, [], k)
  {
  }

  lemma LastOfSome(p: Primitives, txs: seq<ChainTx>, k: Data)
    ensures forall o, u: uint64 :: LastPays(p, txs, k, o, u) ==> !NonePays(p, txs, k)
  {
    hide Pays;
    hide PaysOut;
    forall o, u: uint64 | LastPays(p, txs, k, o, u) ensures !NonePays(p, txs, k) {
      var i :| 0 <= i < |txs| && PaysOut(p, txs[i], k, o, u) && forall j :: i < j < |txs| ==> !Pays(p, txs[j], k);
      PaysSomething(p, txs[i], k);
    }
  }

  /**
   Any put, on any store: an output is stored afterwards as the last of the block's transactions that pays
   its hash paid it, and as before where none does.
   */
  lemma PutOutputs(p: Primitives, s: Store, b: B.Block, txs: seq<ChainTx>, k: Data, o: Tx.Output, unlockBlock: uint64)
    ensures ReadOutput(AfterPut(p, s, b, txs), k) == Ok((o, unlockBlock)) <==>
      || LastPays(p, [b.reward] + txs, k, o, unlockBlock)
      || (NonePays(p, [b.reward] + txs, k) && ReadOutput(s, k) == Ok((o, unlockBlock)))
  {
    hide TxWrites;
    hide TxsWrites;
    hide PutAll;
    hide ReadOutput;
    hide HeaderWrites;
    hide Pays;
    hide PaysOut;
    assert ItemWrites(p, Stored(b, txs)) == BlockWrites(p, b, txs);
    ItemOutputsWritten(p, s, Stored(b, txs), k);
    LastOfSome(p, [b.reward] + txs, k);
  }

  /** Of the items that pay an output with hash `k`, the last one pays this. */
  ghost predicate HistoryPays(p: Primitives, h: seq<Item>, k: Data, o: Tx.Output, unlockBlock: uint64) {
    exists i :: 0 <= i < |h| && LastPays(p, Payers(h[i]), k, o, unlockBlock) &&
      forall j :: i < j < |h| ==> NonePays(p, Payers(h[j]), k)
  }

  ghost predicate NoItemPays(p: Primitives, h: seq<Item>, k: Data) {
    forall i :: 0 <= i < |h| ==> NonePays(p, Payers(h[i]), k)
  }

  lemma HistoryPaysSnoc(p: Primitives, h: seq<Item>, k: Data)
    requires h != []
    ensures
      var front, last := h[..|h| - 1], Payers(h[|h| - 1]);
      && (NoItemPays(p, h, k) <==> NoItemPays(p, front, k) && NonePays(p, last, k))
      && forall o, u: uint64 :: HistoryPays(p, h, k, o, u) <==>
        LastPays(p, last, k, o, u) || (HistoryPays(p, front, k, o, u) && NonePays(p, last, k))
  {
    hide NonePays;
    hide LastPays;
    hide Payers;
    var n := |h| - 1;
    var front := h[..n];
    assert forall i :: 0 <= i < n ==> front[i] == h[i];
    forall o, u: uint64 | HistoryPays(p, h, k, o, u)
      ensures LastPays(p, Payers(h[n]), k, o, u) || (HistoryPays(p, front, k, o, u) && NonePays(p, Payers(h[n]), k))
    {
      var i :| 0 <= i < |h| && LastPays(p, Payers(h[i]), k, o, u) &&
        forall j :: i < j < |h| ==> NonePays(p, Payers(h[j]), k);
      if i < n {
        assert LastPays(p, Payers(front[i]), k, o, u);
      }
    }
    forall o, u: uint64 |
      LastPays(p, Payers(h[n]), k, o, u) || (HistoryPays(p, front, k, o, u) && NonePays(p, Payers(h[n]), k))
      ensures HistoryPays(p, h, k, o, u)
    {
      if !LastPays(p, Payers(h[n]), k, o, u) {
        var i :| 0 <= i < n && LastPays(p, Payers(front[i]), k, o, u) &&
          forall j :: i < j < n ==> NonePays(p, Payers(front[j]), k);
        assert LastPays(p, Payers(h[i]), k, o, u);
      }
    }
  }

  /**
   The output table of any history: an output reads back, with an unlock block, exactly if the last
   transaction to pay its hash paid it so, be it of a stored block or the reward of a removed one; and
   nothing is stored under any other key.
   */
  lemma {:induction false} OutputsAgree(p: Primitives, h: seq<Item>, k: Data)
    ensures forall o, u: uint64 :: ReadOutput(Replay(p, h), k) == Ok((o, u)) <==> HistoryPays(p, h, k, o, u)
    ensures NoItemPays(p, h, k) ==> ReadOutput(Replay(p, h), k) == Err(DB_TRANSACTION_OUTPUT_NOT_FOUND)
  {
    hide ItemWrites;
    hide PutAll;
    hide ReadOutput;
    hide Payers;
    hide LastPays;
    hide NonePays;
    hide HistoryPays;
    hide NoItemPays;
    if h == [] {
      EmptyTable(p, k);
    } else {
      var front, last := h[..|h| - 1], h[|h| - 1];
      OutputsAgree(p, front, k);
      ItemOutputsWritten(p, Replay(p, front), last, k);
      HistoryPaysSnoc(p, h, k);
      LastOfSome(p, Payers(last), k);
    }
  }

  lemma EmptyTable(p: Primitives, k: Data)
    ensures forall o, u: uint64 :: ReadOutput(Replay(p, []), k) != Ok((o, u)) && !HistoryPays(p, [], k, o, u)
    ensures ReadOutput(Replay(p, []), k) == Err(DB_TRANSACTION_OUTPUT_NOT_FOUND)
  {
  }
}
