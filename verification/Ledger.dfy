/**
 The chain over whole runs of puts and rewinds: the six tables agree with the stored blocks, and
 nothing is spent twice.
 */
module Ledger {
  import opened Bytes
  import opened Collections
  import opened Crypto
  import opened Ordering
  import opened Lmdb
  import opened Tables
  import opened ReadBack
  import opened History
  import opened Rewinding
  import opened PaidOutputs
  import Tx = Transactions
  import B = Blocks

  // ---------------------------------------------------------------- which entries a transaction owns

  lemma {:induction false} TxsDeletesMember(p: Primitives, txs: seq<ChainTx>, e: Entry)
    ensures e in TxsDeletes(p, txs) <==> exists i :: 0 <= i < |txs| && e in TxDeletes(p, txs[i])
  {
    hide TxDeletes;
    if txs != [] {
      TxsDeletesMember(p, txs[..|txs| - 1], e);
      if i :| 0 <= i < |txs| && e in TxDeletes(p, txs[i]) {
        if i < |txs| - 1 {
          assert txs[..|txs| - 1][i] == txs[i];
        }
      }
      assert txs[|txs| - 1] == txs[|txs| - 1];
    }
  }

  lemma TxDeletesByTable(p: Primitives, tx: ChainTx, e: Entry)
    ensures e in TxDeletes(p, tx) <==>
      || (e.table == KEY_IMAGES && e.key in tx.KeyImages())
      || (e.table == TRANSACTION_OUTPUTS && Pays(p, tx, e.key))
      || e == TransactionEntry(p, tx)
  {
    hide Tx.Hash;
    hide Tx.OutputHash;
    hide StoredOutput;
    var ks := Entries(KeyImageWrites(tx.KeyImages()));
    var os := Entries(OutputWrites(p, tx.NewOutputs(), tx.UnlockBlock()));
    assert e in TxDeletes(p, tx) <==> e in ks || e in os || e == TransactionEntry(p, tx);
    if e.table == KEY_IMAGES && e.key in tx.KeyImages() {
      var i :| 0 <= i < |tx.KeyImages()| && tx.KeyImages()[i] == e.key;
      assert ks[i] == e;
    }
    if e.table == TRANSACTION_OUTPUTS && Pays(p, tx, e.key) {
      var i :| 0 <= i < |tx.NewOutputs()| && Tx.OutputHash(p, tx.NewOutputs()[i]) == e.key;
      assert os[i] == e;
    }
  }

  lemma RewardSetByTable(p: Primitives, item: Item, e: Entry)
    ensures e in RewardSet(p, item) <==>
      || (e.table == TRANSACTION_OUTPUTS && Pays(p, item.block.reward, e.key))
      || e == TransactionEntry(p, item.block.reward)
  {
    hide Tx.Hash;
    hide B.Hash;
    hide TxDeletes;
    hide TxWrites;
    var blockHash := B.Hash(p, item.block);
    PermutedTx(p, item.block.reward, blockHash);
    TxDeletesByTable(p, item.block.reward, e);
    assert e in multiset(Entries(TxWrites(p, item.block.reward, blockHash))) <==>
      e in multiset(TxDeletes(p, item.block.reward));
  }

  /** A stored block owns the entries of its transactions and its three header entries. */
  lemma OwnSetByTable(p: Primitives, item: Item, e: Entry)
    requires item.Stored?
    ensures e in OwnSet(p, item) <==>
      e in HeaderDeletes(p, item.block) || exists i :: 0 <= i < |item.txs| && e in TxDeletes(p, item.txs[i])
  {
    hide TxDeletes;
    hide HeaderDeletes;
    TxsDeletesMember(p, item.txs, e);
  }

  // ---------------------------------------------------------------- the tables agree

  lemma OwnedHeader(p: Primitives, h: seq<Item>, e: Entry)
    requires Separated(p, h) && e in Replay(p, h)
    requires e.table in {BLOCKS, BLOCK_INDEXES, BLOCK_TIMESTAMPS}
    ensures exists i :: 0 <= i < |h| && h[i].Stored? && e in HeaderDeletes(p, h[i].block)
  {
    hide Replay;
    hide RewardSet;
    hide OwnSet;
    hide TxDeletes;
    hide HeaderDeletes;
    hide SelfApart;
    hide Apart;
    ReplayKeys(p, h);
    var i :| 0 <= i < |h| && (e in RewardSet(p, h[i]) || e in OwnSet(p, h[i]));
    RewardTables(p, h[i]);
    assert h[i].Stored? by { OnlyStoredOwn(p, h[i], e); }
    OwnSetByTable(p, h[i], e);
    forall j | 0 <= j < |h[i].txs| ensures e !in TxDeletes(p, h[i].txs[j]) {
      TxDeletesByTable(p, h[i].txs[j], e);
    }
  }

  lemma OnlyStoredOwn(p: Primitives, item: Item, e: Entry)
    requires e in OwnSet(p, item)
    ensures item.Stored?
  {
  }

  /**
   Blocks, indexes and timestamps agree in every separated history: an entry is there exactly when a
   stored block put it there, and it holds what that block put.
   */
  lemma HeadersAgree(p: Primitives, h: seq<Item>, k: Data, v: Data)
    requires Separated(p, h)
    ensures Holds(Replay(p, h), Entry(BLOCK_INDEXES, k), v) <==>
      exists i :: 0 <= i < |h| && h[i].Stored? && k == Index(h[i].block.index) && v == B.Hash(p, h[i].block)
    ensures Holds(Replay(p, h), Entry(BLOCK_TIMESTAMPS, k), v) <==>
      exists i :: 0 <= i < |h| && h[i].Stored? && k == Index(h[i].block.timestamp) && v == B.Hash(p, h[i].block)
    ensures Holds(Replay(p, h), Entry(BLOCKS, k), v) <==>
      exists i :: 0 <= i < |h| && h[i].Stored? && k == B.Hash(p, h[i].block) && v == B.FullBytes(h[i].block)
  {
    hide Replay;
    hide Separated;
    hide B.Hash;
    hide B.FullBytes;
    forall i | 0 <= i < |h| && h[i].Stored?
      ensures Holds(Replay(p, h), Entry(BLOCK_INDEXES, Index(h[i].block.index)), B.Hash(p, h[i].block))
      ensures Holds(Replay(p, h), Entry(BLOCK_TIMESTAMPS, Index(h[i].block.timestamp)), B.Hash(p, h[i].block))
      ensures Holds(Replay(p, h), Entry(BLOCKS, B.Hash(p, h[i].block)), B.FullBytes(h[i].block))
    {
      HeaderHeld(p, h, i);
    }
    if Entry(BLOCK_INDEXES, k) in Replay(p, h) {
      OwnedHeader(p, h, Entry(BLOCK_INDEXES, k));
    }
    if Entry(BLOCK_TIMESTAMPS, k) in Replay(p, h) {
      OwnedHeader(p, h, Entry(BLOCK_TIMESTAMPS, k));
    }
    if Entry(BLOCKS, k) in Replay(p, h) {
      OwnedHeader(p, h, Entry(BLOCKS, k));
    }
  }

  lemma HeaderHeld(p: Primitives, h: seq<Item>, i: nat)
    requires Separated(p, h) && i < |h| && h[i].Stored?
    ensures Holds(Replay(p, h), Entry(BLOCK_INDEXES, Index(h[i].block.index)), B.Hash(p, h[i].block))
    ensures Holds(Replay(p, h), Entry(BLOCK_TIMESTAMPS, Index(h[i].block.timestamp)), B.Hash(p, h[i].block))
    ensures Holds(Replay(p, h), Entry(BLOCKS, B.Hash(p, h[i].block)), B.FullBytes(h[i].block))
  {
    hide Replay;
    hide Separated;
    hide B.Hash;
    hide B.FullBytes;
    hide TxsWrites;
    var ws := HeaderWrites(p, h[i].block);
    var own := OwnWrites(p, h[i].block, h[i].txs);
    assert ws[0] in own && ws[1] in own && ws[2] in own;
    OwnValue(p, h, i, ws[0]);
    OwnValue(p, h, i, ws[1]);
    OwnValue(p, h, i, ws[2]);
  }

  /** Key images are the union over the stored transactions; rewards, removed or not, have none. */
  lemma KeyImagesAgree(p: Primitives, h: seq<Item>, k: Data)
    requires Separated(p, h)
    ensures Entry(KEY_IMAGES, k) in Replay(p, h) <==>
      exists i, j :: 0 <= i < |h| && h[i].Stored? && 0 <= j < |h[i].txs| &&
        h[i].txs[j].User? && k in h[i].txs[j].body.keyImages
  {
    hide Replay;
    hide RewardSet;
    hide OwnSet;
    hide TxDeletes;
    hide SelfApart;
    hide Apart;
    var e := Entry(KEY_IMAGES, k);
    ReplayKeys(p, h);
    if e in Replay(p, h) {
      var i :| 0 <= i < |h| && (e in RewardSet(p, h[i]) || e in OwnSet(p, h[i]));
      RewardSetByTable(p, h[i], e);
      OnlyStoredOwn(p, h[i], e);
      OwnSetByTable(p, h[i], e);
      var j :| 0 <= j < |h[i].txs| && e in TxDeletes(p, h[i].txs[j]);
      TxDeletesByTable(p, h[i].txs[j], e);
    }
    if i, j :| 0 <= i < |h| && h[i].Stored? && 0 <= j < |h[i].txs| &&
               h[i].txs[j].User? && k in h[i].txs[j].body.keyImages {
      TxDeletesByTable(p, h[i].txs[j], e);
      OwnSetByTable(p, h[i], e);
    }
  }

  /**
   Every member of a stored block reads back: each output under its hash with the unlock block of its
   transaction, and each key image of a user transaction as spent.
   */
  lemma MemberOutputsRead(p: Primitives, h: seq<Item>, i: nat, j: nat)
    requires Separated(p, h) && i < |h| && h[i].Stored? && j < |h[i].txs|
    ensures
      var s, tx := Replay(p, h), h[i].txs[j];
      match tx
      case User(prefix, body, _, _) =>
        && (forall m :: 0 <= m < |body.outputs| ==>
              ReadOutput(s, p.sha3(Tx.EncodeOutput(body.outputs[m]))) == Ok((body.outputs[m], prefix.unlockBlock)))
        && forall m :: 0 <= m < |body.keyImages| ==> Entry(KEY_IMAGES, body.keyImages[m]) in s
      case StakeRefund(prefix, _, _, outputs) =>
        forall m :: 0 <= m < |outputs| ==>
          ReadOutput(s, p.sha3(Tx.EncodeOutput(outputs[m]))) == Ok((outputs[m], prefix.unlockBlock))
      case Genesis(prefix, _, outputs) =>
        forall m :: 0 <= m < |outputs| ==>
          ReadOutput(s, p.sha3(Tx.EncodeOutput(outputs[m]))) == Ok((outputs[m], prefix.unlockBlock))
      case Staker(_, _, _) => true
  {
    hide Replay;
    hide Separated;
    hide Tx.EncodeOutput;
    hide StoredOutput;
    hide ReadOutput;
    hide StoredTransaction;
    var tx, s := h[i].txs[j], Replay(p, h);
    var os, ks, unlockBlock := tx.NewOutputs(), tx.KeyImages(), tx.UnlockBlock();
    forall m | 0 <= m < |os|
      ensures ReadOutput(s, p.sha3(Tx.EncodeOutput(os[m]))) == Ok((os[m], unlockBlock))
    {
      OutputHeld(p, h, i, j, m);
    }
    forall m | 0 <= m < |ks| ensures Entry(KEY_IMAGES, ks[m]) in s {
      KeyImageHeld(p, h, i, j, m);
    }
    match tx
    case User(prefix, body, _, _) => assert os == body.outputs && ks == body.keyImages;
    case StakeRefund(_, _, _, outputs) => assert os == outputs;
    case Genesis(_, _, outputs) => assert os == outputs;
    case Staker(_, _, _) =>
  }

  lemma OutputHeld(p: Primitives, h: seq<Item>, i: nat, j: nat, m: nat)
    requires Separated(p, h) && i < |h| && h[i].Stored? && j < |h[i].txs| && m < |h[i].txs[j].NewOutputs()|
    ensures
      var tx := h[i].txs[j];
      ReadOutput(Replay(p, h), Tx.OutputHash(p, tx.NewOutputs()[m])) == Ok((tx.NewOutputs()[m], tx.UnlockBlock()))
  {
    hide Replay;
    hide Separated;
    hide Tx.Hash;
    hide Tx.OutputHash;
    hide StoredOutput;
    hide ParseStoredOutput;
    hide StoredTransaction;
    hide B.Hash;
    var tx, blockHash := h[i].txs[j], B.Hash(p, h[i].block);
    var ws := OutputWrites(p, tx.NewOutputs(), tx.UnlockBlock());
    assert ws[m] in TxWrites(p, tx, blockHash);
    TxWriteIn(p, h[i].txs, blockHash, j, ws[m]);
    OwnValue(p, h, i, ws[m]);
    StoredOutputReadsBack(tx.NewOutputs()[m], tx.UnlockBlock());
  }

  lemma KeyImageHeld(p: Primitives, h: seq<Item>, i: nat, j: nat, m: nat)
    requires Separated(p, h) && i < |h| && h[i].Stored? && j < |h[i].txs| && m < |h[i].txs[j].KeyImages()|
    ensures Entry(KEY_IMAGES, h[i].txs[j].KeyImages()[m]) in Replay(p, h)
  {
    hide Replay;
    hide Separated;
    hide Tx.Hash;
    hide Tx.OutputHash;
    hide StoredOutput;
    hide StoredTransaction;
    hide B.Hash;
    var tx, blockHash := h[i].txs[j], B.Hash(p, h[i].block);
    var ws := KeyImageWrites(tx.KeyImages());
    assert ws[m] in TxWrites(p, tx, blockHash);
    TxWriteIn(p, h[i].txs, blockHash, j, ws[m]);
    OwnValue(p, h, i, ws[m]);
  }

  // ---------------------------------------------------------------- what one put adds

  /**
   A put over any store: outputs read back as the last of these transactions that pays them paid them, and
   else as before; the key images of user transactions are spent, and those that were spent before.
   */
  ghost predicate Deposited(p: Primitives, before: Store, txs: seq<ChainTx>, after: Store) {
    && (forall k, o, u: uint64 :: ReadOutput(after, k) == Ok((o, u)) <==>
          LastPays(p, txs, k, o, u) || (NonePays(p, txs, k) && ReadOutput(before, k) == Ok((o, u))))
    && (forall k :: Entry(KEY_IMAGES, k) in after <==>
          Entry(KEY_IMAGES, k) in before ||
          exists j :: 0 <= j < |txs| && txs[j].User? && k in txs[j].body.keyImages)
  }

  lemma PutDeposits(p: Primitives, s: Store, b: B.Block, txs: seq<ChainTx>)
    ensures Deposited(p, s, [b.reward] + txs, AfterPut(p, s, b, txs))
  {
    hide AfterPut;
    hide ReadOutput;
    hide LastPays;
    hide NonePays;
    var all, after := [b.reward] + txs, AfterPut(p, s, b, txs);
    forall k, o, u: uint64
      ensures ReadOutput(after, k) == Ok((o, u)) <==>
        LastPays(p, all, k, o, u) || (NonePays(p, all, k) && ReadOutput(s, k) == Ok((o, u)))
    {
      PutOutputs(p, s, b, txs, k, o, u);
    }
    forall k
      ensures Entry(KEY_IMAGES, k) in after <==>
        Entry(KEY_IMAGES, k) in s || exists j :: 0 <= j < |all| && all[j].User? && k in all[j].body.keyImages
    {
      PutKeyImages(p, s, b, txs, k);
      if j :| 0 <= j < |txs| && txs[j].User? && k in txs[j].body.keyImages {
        assert all[j + 1] == txs[j];
      }
    }
  }

  lemma PutKeyImages(p: Primitives, s: Store, b: B.Block, txs: seq<ChainTx>, k: Data)
    ensures Entry(KEY_IMAGES, k) in AfterPut(p, s, b, txs) <==>
      Entry(KEY_IMAGES, k) in s || exists j :: 0 <= j < |txs| && txs[j].User? && k in txs[j].body.keyImages
  {
    hide PutAll;
    hide TxWrites;
    hide TxsWrites;
    hide TxDeletes;
    hide TxsDeletes;
    hide B.Hash;
    hide B.FullBytes;
    var e, blockHash := Entry(KEY_IMAGES, k), B.Hash(p, b);
    var r, ts, h := TxWrites(p, b.reward, blockHash), TxsWrites(p, txs, blockHash), HeaderWrites(p, b);
    PutAllKeys(s, BlockWrites(p, b, txs));
    EntriesConcat(r + ts, h);
    EntriesConcat(r, ts);
    assert e !in Entries(h);
    PermutedTx(p, b.reward, blockHash);
    TxDeletesByTable(p, b.reward, e);
    assert e in multiset(Entries(r)) <==> e in multiset(TxDeletes(p, b.reward));
    PermutedTxs(p, txs, blockHash);
    assert e in multiset(Entries(ts)) <==> e in multiset(TxsDeletes(p, txs));
    TxsDeletesMember(p, txs, e);
    forall j | 0 <= j < |txs| ensures e in TxDeletes(p, txs[j]) <==> txs[j].User? && k in txs[j].body.keyImages {
      TxDeletesByTable(p, txs[j], e);
    }
  }

  // ---------------------------------------------------------------- what one deletion removes

  /** The entries of a block and its listed transactions, table by table; those of the reward are not among them. */
  ghost predicate OfBlock(p: Primitives, b: B.Block, txs: seq<ChainTx>, e: Entry) {
    match e.table
    case BLOCKS => e.key == B.Hash(p, b)
    case BLOCK_INDEXES => e.key == Index(b.index)
    case BLOCK_TIMESTAMPS => e.key == Index(b.timestamp)
    case TRANSACTIONS => exists j :: 0 <= j < |txs| && e.key == Tx.Hash(p, txs[j])
    case KEY_IMAGES => exists j :: 0 <= j < |txs| && txs[j].User? && e.key in txs[j].body.keyImages
    case TRANSACTION_OUTPUTS => exists j :: 0 <= j < |txs| && Pays(p, txs[j], e.key)
  }

  /** Exactly these have gone, and the others are as they were. */
  ghost predicate Withdrawn(p: Primitives, before: Store, b: B.Block, txs: seq<ChainTx>, after: Store) {
    && (forall e :: e in after <==> e in before && !OfBlock(p, b, txs, e))
    && (forall e :: e in after ==> after[e] == before[e])
  }

  lemma DeletionWithdraws(p: Primitives, s: Store, index: uint64)
    requires AfterDelete(p, s, index).Ok?
    ensures
      var (b, txs) := ReadBlockAt(s, index).value;
      Withdrawn(p, s, b, txs, AfterDelete(p, s, index).value)
  {
    hide ReadBlockAt;
    hide BlockDeletes;
    hide DelAll;
    hide OfBlock;
    var (b, txs) := ReadBlockAt(s, index).value;
    DelAllIff(s, BlockDeletes(p, b, txs));
    forall e ensures e in BlockDeletes(p, b, txs) <==> OfBlock(p, b, txs, e) {
      DeletedOfBlock(p, b, txs, e);
    }
  }

  lemma DeletedOfBlock(p: Primitives, b: B.Block, txs: seq<ChainTx>, e: Entry)
    ensures e in BlockDeletes(p, b, txs) <==> OfBlock(p, b, txs, e)
  {
    hide TxDeletes;
    hide TxsDeletes;
    hide B.Hash;
    hide Tx.Hash;
    hide Index;
    hide Pays;
    TxsDeletesMember(p, txs, e);
    forall j | 0 <= j < |txs|
      ensures e in TxDeletes(p, txs[j]) <==>
        || (e.table == KEY_IMAGES && txs[j].User? && e.key in txs[j].body.keyImages)
        || (e.table == TRANSACTION_OUTPUTS && Pays(p, txs[j], e.key))
        || (e.table == TRANSACTIONS && e.key == Tx.Hash(p, txs[j]))
    {
      TxDeletesByTable(p, txs[j], e);
    }
  }

  // ---------------------------------------------------------------- owned once

  lemma TxsApart(p: Primitives, txs: seq<ChainTx>, a: nat, b: nat, e: Entry)
    requires a < b < |txs| && Distinct(TxsDeletes(p, txs))
    ensures !(e in TxDeletes(p, txs[a]) && e in TxDeletes(p, txs[b]))
  {
    hide TxDeletes;
    assert txs == txs[..b] + txs[b..];
    TxsDeletesConcat(p, txs[..b], txs[b..]);
    DistinctParts(TxsDeletes(p, txs[..b]), TxsDeletes(p, txs[b..]));
    TxsDeletesMember(p, txs[..b], e);
    TxsDeletesMember(p, txs[b..], e);
    assert txs[..b][a] == txs[a] && txs[b..][0] == txs[b];
  }

  /** No entry of a stored transaction belongs to another stored transaction as well. */
  lemma OwnedOnce(p: Primitives, h: seq<Item>, i: nat, a: nat, j: nat, b: nat, e: Entry)
    requires Separated(p, h)
    requires i < |h| && h[i].Stored? && a < |h[i].txs| && e in TxDeletes(p, h[i].txs[a])
    requires j < |h| && h[j].Stored? && b < |h[j].txs| && e in TxDeletes(p, h[j].txs[b])
    ensures i == j && a == b
  {
    hide TxDeletes;
    hide TxsDeletes;
    hide RewardSet;
    OwnSetByTable(p, h[i], e);
    OwnSetByTable(p, h[j], e);
    if i == j {
      assert SelfApart(p, h[i]);
      DistinctParts(TxsDeletes(p, h[i].txs), HeaderDeletes(p, h[i].block));
      if a < b {
        TxsApart(p, h[i].txs, a, b, e);
      } else if b < a {
        TxsApart(p, h[i].txs, b, a, e);
      }
    }
  }

  /**
   Nothing is spent twice: a stored key image belongs to one position of one transaction of one block,
   and no transaction is stored in two places.
   */
  lemma NoDoubleSpend(p: Primitives, h: seq<Item>, i: nat, a: nat, j: nat, b: nat)
    requires Separated(p, h)
    requires i < |h| && h[i].Stored? && a < |h[i].txs|
    requires j < |h| && h[j].Stored? && b < |h[j].txs|
    ensures forall k, l | 0 <= k < |h[i].txs[a].KeyImages()| && 0 <= l < |h[j].txs[b].KeyImages()| ::
      h[i].txs[a].KeyImages()[k] == h[j].txs[b].KeyImages()[l] ==> i == j && a == b && k == l
    ensures Tx.Hash(p, h[i].txs[a]) == Tx.Hash(p, h[j].txs[b]) ==> i == j && a == b
  {
    hide Tx.Hash;
    hide TxDeletes;
    hide Separated;
    var t, u := h[i].txs[a], h[j].txs[b];
    forall k, l | 0 <= k < |t.KeyImages()| && 0 <= l < |u.KeyImages()| && t.KeyImages()[k] == u.KeyImages()[l]
      ensures i == j && a == b && k == l
    {
      var e := Entry(KEY_IMAGES, t.KeyImages()[k]);
      TxDeletesByTable(p, t, e);
      TxDeletesByTable(p, u, e);
      OwnedOnce(p, h, i, a, j, b, e);
      OwnKeyImagesDistinct(p, h, i, a);
    }
    if Tx.Hash(p, t) == Tx.Hash(p, u) {
      var e := TransactionEntry(p, t);
      TxDeletesByTable(p, t, e);
      TxDeletesByTable(p, u, e);
      OwnedOnce(p, h, i, a, j, b, e);
    }
  }

  lemma OwnKeyImagesDistinct(p: Primitives, h: seq<Item>, i: nat, a: nat)
    requires Separated(p, h) && i < |h| && h[i].Stored? && a < |h[i].txs|
    ensures Distinct(h[i].txs[a].KeyImages())
  {
    hide Tx.Hash;
    hide Tx.OutputHash;
    hide RewardSet;
    hide TxsDeletes;
    var txs := h[i].txs;
    assert SelfApart(p, h[i]);
    DistinctParts(TxsDeletes(p, txs), HeaderDeletes(p, h[i].block));
    OneTxDistinct(p, txs, a);
    var es := Entries(KeyImageWrites(txs[a].KeyImages()));
    DistinctParts(es, Entries(OutputWrites(p, txs[a].NewOutputs(), txs[a].UnlockBlock())));
    forall k, l | 0 <= k < l < |txs[a].KeyImages()| ensures txs[a].KeyImages()[k] != txs[a].KeyImages()[l] {
      assert es[k] != es[l];
    }
  }

  lemma OneTxDistinct(p: Primitives, txs: seq<ChainTx>, a: nat)
    requires a < |txs| && Distinct(TxsDeletes(p, txs))
    ensures Distinct(TxDeletes(p, txs[a]))
    ensures Distinct(Entries(KeyImageWrites(txs[a].KeyImages())) +
                     Entries(OutputWrites(p, txs[a].NewOutputs(), txs[a].UnlockBlock())))
  {
    hide KeyImageWrites;
    hide OutputWrites;
    hide Entries;
    hide Distinct;
    hide TransactionEntry;
    hide Tx.Hash;
    hide Tx.OutputHash;
    hide Tx.Transaction.KeyImages;
    hide Tx.Transaction.NewOutputs;
    hide Tx.Transaction.UnlockBlock;
    assert txs == txs[..a + 1] + txs[a + 1..];
    TxsDeletesConcat(p, txs[..a + 1], txs[a + 1..]);
    DistinctParts(TxsDeletes(p, txs[..a + 1]), TxsDeletes(p, txs[a + 1..]));
    assert txs[..a + 1][..a] == txs[..a];
    DistinctParts(TxsDeletes(p, txs[..a]), TxDeletes(p, txs[a]));
    DistinctParts(Entries(KeyImageWrites(txs[a].KeyImages())) +
                  Entries(OutputWrites(p, txs[a].NewOutputs(), txs[a].UnlockBlock())), [TransactionEntry(p, txs[a])]);
  }
}
