/**
 Chain storage: what a block writes into the six tables, what deleting it removes, how blocks and
 transactions are read back, and the operations that do this inside write transactions.

 Stored transactions are laid out as the readers expect them: block hash, then transaction; stored
 outputs as output, then unlock block.
 */
module Tables {
  import opened Bytes
  import opened Crypto
  import opened Errors
  import opened Ordering
  import opened Lmdb
  import Tx = Transactions
  import B = Blocks

  type ChainTx = Tx.Transaction

  datatype Result<+T> = Ok(value: T) | Err(error: Failure) {
    predicate IsFailure() {
      Err?
    }

    function PropagateFailure<U>(): Result<U>
      requires Err?
    {
      Err(error)
    }

    function Extract(): T
      requires Ok?
    {
      value
    }
  }

  // ---------------------------------------------------------------- what is written

  function StoredTransaction(tx: ChainTx, blockHash: Key): Data {
    blockHash + Tx.Encode(tx)
  }

  function StoredOutput(o: Tx.Output, unlockBlock: uint64): Data {
    Tx.EncodeOutput(o) + EncodeVarint(unlockBlock)
  }

  function KeyImageWrites(ks: seq<Key>): (ws: seq<Write>)
    ensures |ws| == |ks| && forall i :: 0 <= i < |ks| ==> ws[i] == Write(Entry(KEY_IMAGES, ks[i]), [])
  {
    seq(|ks|, i requires 0 <= i < |ks| => Write(Entry(KEY_IMAGES, ks[i]), []))
  }

  function OutputWrite(p: Primitives, o: Tx.Output, unlockBlock: uint64): Write {
    Write(Entry(TRANSACTION_OUTPUTS, Tx.OutputHash(p, o)), StoredOutput(o, unlockBlock))
  }

  function OutputWrites(p: Primitives, os: seq<Tx.Output>, unlockBlock: uint64): (ws: seq<Write>)
    ensures |ws| == |os| && forall i :: 0 <= i < |os| ==> ws[i] == OutputWrite(p, os[i], unlockBlock)
  {
    seq(|os|, i requires 0 <= i < |os| => OutputWrite(p, os[i], unlockBlock))
  }

  function OutputHashes(p: Primitives, os: seq<Tx.Output>): (hs: seq<Data>)
    ensures |hs| == |os| && forall i :: 0 <= i < |os| ==> hs[i] == Tx.OutputHash(p, os[i])
  {
    seq(|os|, i requires 0 <= i < |os| => Tx.OutputHash(p, os[i]))
  }

  function TransactionEntry(p: Primitives, tx: ChainTx): Entry {
    Entry(TRANSACTIONS, Tx.Hash(p, tx))
  }

  function TxWrites(p: Primitives, tx: ChainTx, blockHash: Key): seq<Write> {
    [Write(TransactionEntry(p, tx), StoredTransaction(tx, blockHash))] +
    KeyImageWrites(tx.KeyImages()) + OutputWrites(p, tx.NewOutputs(), tx.UnlockBlock())
  }

  function TxsWrites(p: Primitives, txs: seq<ChainTx>, blockHash: Key): seq<Write> {
    if txs == [] then []
    else TxsWrites(p, txs[..|txs| - 1], blockHash) + TxWrites(p, txs[|txs| - 1], blockHash)
  }

  lemma {:induction false} TxsWritesConcat(p: Primitives, txs: seq<ChainTx>, more: seq<ChainTx>, blockHash: Key)
    ensures TxsWrites(p, txs + more, blockHash) == TxsWrites(p, txs, blockHash) + TxsWrites(p, more, blockHash)
  {
    hide TxWrites;
    if more == [] {
      assert txs + more == txs;
    } else {
      assert (txs + more)[..|txs + more| - 1] == txs + more[..|more| - 1];
      TxsWritesConcat(p, txs, more[..|more| - 1], blockHash);
    }
  }

  function HeaderWrites(p: Primitives, b: B.Block): seq<Write> {
    [Write(Entry(BLOCKS, B.Hash(p, b)), B.FullBytes(b)),
     Write(Entry(BLOCK_INDEXES, Index(b.index)), B.Hash(p, b)),
     Write(Entry(BLOCK_TIMESTAMPS, Index(b.timestamp)), B.Hash(p, b))]
  }

  function TransactionWrites(p: Primitives, b: B.Block, txs: seq<ChainTx>): seq<Write> {
    TxWrites(p, b.reward, B.Hash(p, b)) + TxsWrites(p, txs, B.Hash(p, b))
  }

  function BlockWrites(p: Primitives, b: B.Block, txs: seq<ChainTx>): seq<Write> {
    TransactionWrites(p, b, txs) + HeaderWrites(p, b)
  }

  // ---------------------------------------------------------------- what is deleted

  function TxDeletes(p: Primitives, tx: ChainTx): seq<Entry> {
    Entries(KeyImageWrites(tx.KeyImages())) +
    Entries(OutputWrites(p, tx.NewOutputs(), tx.UnlockBlock())) + [TransactionEntry(p, tx)]
  }

  function TxsDeletes(p: Primitives, txs: seq<ChainTx>): seq<Entry> {
    if txs == [] then []
    else TxsDeletes(p, txs[..|txs| - 1]) + TxDeletes(p, txs[|txs| - 1])
  }

  function HeaderDeletes(p: Primitives, b: B.Block): seq<Entry> {
    [Entry(BLOCK_TIMESTAMPS, Index(b.timestamp)),
     Entry(BLOCK_INDEXES, Index(b.index)),
     Entry(BLOCKS, B.Hash(p, b))]
  }

  /** The reward transaction is not among them. */
  function BlockDeletes(p: Primitives, b: B.Block, txs: seq<ChainTx>): seq<Entry> {
    TxsDeletes(p, txs) + HeaderDeletes(p, b)
  }

  // ---------------------------------------------------------------- what is read

  function ReadTransaction(s: Store, hash: Data): Result<(ChainTx, Key)> {
    if Entry(TRANSACTIONS, hash) !in s then Err(DB_TRANSACTION_NOT_FOUND)
    else ParseStoredTransaction(s[Entry(TRANSACTIONS, hash)])
  }

  function ParseStoredTransaction(value: Data): Result<(ChainTx, Key)> {
    match DecodeKey(value)
    case None => Err(READ_EXCEPTION)
    case Some((blockHash, rest)) =>
      match Tx.Decode(rest)
      case None =>
        var tag := DecodeUint64(rest);
        Err(if tag.Some? && tag.value.0 > Tx.STAKE_REFUND then UNKNOWN_TRANSACTION_TYPE else READ_EXCEPTION)
      case Some((tx, _)) => Ok((tx, blockHash))
  }

  function ReadOutput(s: Store, hash: Data): Result<(Tx.Output, uint64)> {
    if Entry(TRANSACTION_OUTPUTS, hash) !in s then Err(DB_TRANSACTION_OUTPUT_NOT_FOUND)
    else ParseStoredOutput(s[Entry(TRANSACTION_OUTPUTS, hash)])
  }

  function ParseStoredOutput(value: Data): Result<(Tx.Output, uint64)> {
    match Tx.DecodeOutput(value)
    case None => Err(READ_EXCEPTION)
    case Some((o, rest)) =>
      match DecodeUint64(rest)
      case None => Err(READ_EXCEPTION)
      case Some((unlockBlock, _)) => Ok((o, unlockBlock))
  }

  /** Reading a block reports every error of a transaction as a missing one; exceptions pass through. */
  function ReadMember(s: Store, hash: Data): Result<ChainTx> {
    match ReadTransaction(s, hash)
    case Ok((tx, _)) => Ok(tx)
    case Err(e) => Err(if e == READ_EXCEPTION then e else DB_TRANSACTION_NOT_FOUND)
  }

  function ReadAll(s: Store, hashes: seq<Key>): Result<seq<ChainTx>> {
    if hashes == [] then Ok([])
    else
      var init :- ReadAll(s, hashes[..|hashes| - 1]);
      var last :- ReadMember(s, hashes[|hashes| - 1]);
      Ok(init + [last])
  }

  function ReadBlock(s: Store, hash: Data): Result<(B.Block, seq<ChainTx>)> {
    if Entry(BLOCKS, hash) !in s then Err(DB_BLOCK_NOT_FOUND)
    else
      match B.Decode(s[Entry(BLOCKS, hash)])
      case None => Err(READ_EXCEPTION)
      case Some((b, _)) =>
        var txs :- ReadAll(s, b.transactions);
        Ok((b, txs))
  }

  function ReadBlockAt(s: Store, index: uint64): Result<(B.Block, seq<ChainTx>)> {
    if Entry(BLOCK_INDEXES, Index(index)) !in s then Err(DB_BLOCK_NOT_FOUND)
    else
      match DecodeKey(s[Entry(BLOCK_INDEXES, Index(index))])
      case None => Err(READ_EXCEPTION)
      case Some((hash, _)) => ReadBlock(s, hash)
  }

  // ---------------------------------------------------------------- what the operations do

  function TxHashes(p: Primitives, txs: seq<ChainTx>): (hs: seq<Key>)
    ensures |hs| == |txs| && forall i :: 0 <= i < |txs| ==> hs[i] == Tx.Hash(p, txs[i])
  {
    seq(|txs|, i requires 0 <= i < |txs| => Tx.Hash(p, txs[i]))
  }

  function HashOfHashes(p: Primitives, hs: seq<Key>): Key {
    p.sha3(EncodeAll(Tx.EncodeKey, hs))
  }

  /** The sanity check before anything is written. */
  function CheckPut(p: Primitives, b: B.Block, txs: seq<ChainTx>): ErrorCode {
    if |txs| != |b.transactions| then BLOCK_TXN_MISMATCH
    else if HashOfHashes(p, b.transactions) != HashOfHashes(p, TxHashes(p, txs)) then BLOCK_TXN_ORDER
    else SUCCESS
  }

  function AfterPut(p: Primitives, s: Store, b: B.Block, txs: seq<ChainTx>): Store {
    PutAll(s, BlockWrites(p, b, txs))
  }

  function AfterDelete(p: Primitives, s: Store, index: uint64): Result<Store> {
    var (b, txs) :- ReadBlockAt(s, index);
    match DelAll(s, BlockDeletes(p, b, txs))
    case None => Err(LMDB_NOTFOUND)
    case Some(t) => Ok(t)
  }

  /** Deleting the blocks numbered `top` down to `target + 1`. */
  function AfterRewind(p: Primitives, s: Store, top: nat, target: uint64): Result<Store>
    requires top < TWO_64
    decreases top
  {
    if top <= target then Ok(s)
    else
      var t :- AfterDelete(p, s, top);
      AfterRewind(p, t, top - 1, target)
  }

  /** `rewind` as shipped, where `count` blocks are stored: the loop starts at `count`. */
  function RewindAsShipped(p: Primitives, s: Store, count: uint64, target: uint64): Result<Store> {
    if Entry(BLOCK_INDEXES, Index(target)) !in s then Err(DB_BLOCK_NOT_FOUND)
    else AfterRewind(p, s, count, target)
  }

  /** `rewind` as intended for a chain numbered from 0: the loop starts at the tip. */
  function RewindAsIntended(p: Primitives, s: Store, count: uint64, target: uint64): Result<Store> {
    if Entry(BLOCK_INDEXES, Index(target)) !in s then Err(DB_BLOCK_NOT_FOUND)
    else AfterRewind(p, s, if count == 0 then 0 else count - 1, target)
  }

  lemma RewindOnce(p: Primitives, s: Store, index: uint64)
    requires index > 0
    ensures AfterRewind(p, s, index, index - 1) == AfterDelete(p, s, index)
  {
    hide AfterDelete;
  }

  /** Errors and missing entries early in a run decide the whole run. */
  lemma {:induction false} ReadAllFails(s: Store, hashes: seq<Key>, i: nat)
    requires i <= |hashes| && ReadAll(s, hashes[..i]).Err?
    ensures ReadAll(s, hashes) == ReadAll(s, hashes[..i])
  {
    if i < |hashes| {
      assert hashes[..|hashes| - 1][..i] == hashes[..i];
      ReadAllFails(s, hashes[..|hashes| - 1], i);
    } else {
      assert hashes[..i] == hashes;
    }
  }

  lemma {:induction false} TxsDeletesConcat(p: Primitives, txs: seq<ChainTx>, more: seq<ChainTx>)
    ensures TxsDeletes(p, txs + more) == TxsDeletes(p, txs) + TxsDeletes(p, more)
  {
    hide TxDeletes;
    if more == [] {
      assert txs + more == txs;
    } else {
      assert (txs + more)[..|txs + more| - 1] == txs + more[..|more| - 1];
      TxsDeletesConcat(p, txs, more[..|more| - 1]);
    }
  }

  /** A rewind may stop anywhere in between and go on from there. */
  lemma {:induction false} RewindInSteps(p: Primitives, s: Store, top: nat, stop: uint64, target: uint64)
    requires target <= stop <= top < TWO_64
    requires AfterRewind(p, s, top, stop).Ok?
    ensures AfterRewind(p, s, top, target) == AfterRewind(p, AfterRewind(p, s, top, stop).value, stop, target)
    decreases top
  {
    hide AfterDelete;
    if top > stop {
      RewindInSteps(p, AfterDelete(p, s, top).value, top - 1, stop, target);
    }
  }

  /** One more deletion of a rewind that has come down to `i`. */
  lemma RewindStep(p: Primitives, s: Store, mid: Store, top: nat, i: nat, target: nat)
    requires target < i <= top < TWO_64 && AfterRewind(p, s, top, i) == Ok(mid)
    ensures AfterRewind(p, s, top, i - 1) == AfterDelete(p, mid, i)
    ensures AfterDelete(p, mid, i).Err? ==> AfterRewind(p, s, top, target) == AfterDelete(p, mid, i)
  {
    hide AfterDelete;
    RewindInSteps(p, s, top, i, target);
    RewindInSteps(p, s, top, i, i - 1);
    RewindOnce(p, mid, i);
  }

  /** A rewind whose first block cannot be read fails with that error. */
  lemma RewindMisses(p: Primitives, s: Store, top: nat, target: uint64)
    requires top < TWO_64
    ensures top > target && ReadBlockAt(s, top).Err? ==>
      AfterRewind(p, s, top, target) == Err(ReadBlockAt(s, top).error)
  {
    hide ReadBlockAt;
    hide DelAll;
  }

  lemma NothingToRewind(p: Primitives, s: Store, top: nat, target: nat)
    requires top <= target < TWO_64
    ensures AfterRewind(p, s, top, target) == Ok(s)
  {
  }
}
