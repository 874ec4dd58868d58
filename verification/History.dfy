/**
 What the store holds after any history of puts and rewinds. A history lists, in the order they were
 put, the blocks that are still stored and the residue of removed ones: deleting a block never
 deletes its reward transaction, so a removed block leaves what its reward wrote.
 */
module History {
  import opened Bytes
  import opened Collections
  import opened Crypto
  import opened Ordering
  import opened Lmdb
  import opened Tables
  import opened ReadBack
  import Tx = Transactions
  import B = Blocks

  datatype Item =
    | Stored(block: B.Block, txs: seq<ChainTx>)
    | Residue(block: B.Block)

  function RewardWrites(p: Primitives, b: B.Block): seq<Write> {
    TxWrites(p, b.reward, B.Hash(p, b))
  }

  /** What a block writes besides its reward. */
  function OwnWrites(p: Primitives, b: B.Block, txs: seq<ChainTx>): seq<Write> {
    TxsWrites(p, txs, B.Hash(p, b)) + HeaderWrites(p, b)
  }

  function ItemWrites(p: Primitives, item: Item): seq<Write> {
    RewardWrites(p, item.block) + if item.Stored? then OwnWrites(p, item.block, item.txs) else []
  }

  function Replay(p: Primitives, h: seq<Item>): Store {
    if h == [] then map[] else PutAll(Replay(p, h[..|h| - 1]), ItemWrites(p, h[|h| - 1]))
  }

  // ---------------------------------------------------------------- the invariant

  ghost function RewardSet(p: Primitives, item: Item): set<Entry> {
    EntrySet(Entries(RewardWrites(p, item.block)))
  }

  /** The entries deleting the item removes. */
  ghost function OwnSet(p: Primitives, item: Item): set<Entry> {
    if item.Stored? then EntrySet(BlockDeletes(p, item.block, item.txs)) else {}
  }

  ghost predicate Apart(p: Primitives, a: Item, b: Item) {
    OwnSet(p, a) !! OwnSet(p, b) && OwnSet(p, a) !! RewardSet(p, b) && OwnSet(p, b) !! RewardSet(p, a)
  }

  /** Nothing a stored block owns is named twice, by itself or by any other item. */
  ghost predicate Separated(p: Primitives, h: seq<Item>) {
    && (forall i :: 0 <= i < |h| ==> SelfApart(p, h[i]))
    && (forall i, j :: 0 <= i < j < |h| ==> Apart(p, h[i], h[j]))
  }

  ghost predicate SelfApart(p: Primitives, item: Item) {
    item.Stored? ==> Distinct(BlockDeletes(p, item.block, item.txs)) && OwnSet(p, item) !! RewardSet(p, item)
  }

  ghost predicate AllCoherent(p: Primitives, h: seq<Item>) {
    forall i :: 0 <= i < |h| && h[i].Stored? ==> Coherent(p, h[i].block, h[i].txs)
  }

  function StoredCount(h: seq<Item>): (n: nat)
    ensures n <= |h|
  {
    if h == [] then 0 else StoredCount(h[..|h| - 1]) + if h[|h| - 1].Stored? then 1 else 0
  }

  /** Stored blocks are numbered consecutively from `base` in the order they were put. */
  ghost predicate Numbered(h: seq<Item>, base: nat) {
    forall i :: 0 <= i < |h| && h[i].Stored? ==> h[i].block.index == base + StoredCount(h[..i])
  }

  // ---------------------------------------------------------------- writes against deletions

  lemma EntriesConcat(a: seq<Write>, b: seq<Write>)
    ensures Entries(a + b) == Entries(a) + Entries(b)
  {
  }

  lemma PermutedTx(p: Primitives, tx: ChainTx, blockHash: Key)
    ensures multiset(Entries(TxWrites(p, tx, blockHash))) == multiset(TxDeletes(p, tx))
  {
    hide Tx.Encode;
    hide Tx.Hash;
    hide Tx.OutputHash;
    hide StoredOutput;
    var first := [Write(TransactionEntry(p, tx), StoredTransaction(tx, blockHash))];
    var ks := KeyImageWrites(tx.KeyImages());
    var os := OutputWrites(p, tx.NewOutputs(), tx.UnlockBlock());
    EntriesConcat(first, ks);
    EntriesConcat(first + ks, os);
    assert Entries(first) == [TransactionEntry(p, tx)];
  }

  lemma {:induction false} PermutedTxs(p: Primitives, txs: seq<ChainTx>, blockHash: Key)
    ensures multiset(Entries(TxsWrites(p, txs, blockHash))) == multiset(TxsDeletes(p, txs))
  {
    hide TxWrites;
    hide TxDeletes;
    if txs == [] {
      assert Entries([]) == [];
    } else {
      var front, last := txs[..|txs| - 1], txs[|txs| - 1];
      PermutedTxs(p, front, blockHash);
      PermutedTx(p, last, blockHash);
      EntriesConcat(TxsWrites(p, front, blockHash), TxWrites(p, last, blockHash));
    }
  }

  /** A block deletes exactly the entries it wrote besides its reward, each as often as it wrote it. */
  lemma PermutedOwn(p: Primitives, b: B.Block, txs: seq<ChainTx>)
    ensures multiset(Entries(OwnWrites(p, b, txs))) == multiset(BlockDeletes(p, b, txs))
  {
    hide TxsWrites;
    hide TxsDeletes;
    hide B.Hash;
    hide B.FullBytes;
    PermutedTxs(p, txs, B.Hash(p, b));
    EntriesConcat(TxsWrites(p, txs, B.Hash(p, b)), HeaderWrites(p, b));
    var d := HeaderDeletes(p, b);
    assert Entries(HeaderWrites(p, b)) == [d[2], d[1], d[0]];
    assert d == [d[0], d[1], d[2]];
  }

  lemma OwnEntries(p: Primitives, item: Item)
    requires item.Stored? && SelfApart(p, item)
    ensures Distinct(Entries(OwnWrites(p, item.block, item.txs)))
    ensures EntrySet(Entries(OwnWrites(p, item.block, item.txs))) == OwnSet(p, item)
  {
    hide OwnWrites;
    hide BlockDeletes;
    PermutedOwn(p, item.block, item.txs);
    PermutedDistinct(BlockDeletes(p, item.block, item.txs), Entries(OwnWrites(p, item.block, item.txs)));
  }

  lemma ItemEntries(p: Primitives, item: Item)
    requires SelfApart(p, item)
    ensures EntrySet(Entries(ItemWrites(p, item))) == RewardSet(p, item) + OwnSet(p, item)
  {
    hide OwnWrites;
    hide RewardWrites;
    hide BlockDeletes;
    if item.Stored? {
      OwnEntries(p, item);
      EntriesConcat(RewardWrites(p, item.block), OwnWrites(p, item.block, item.txs));
    } else {
      assert RewardWrites(p, item.block) + [] == RewardWrites(p, item.block);
    }
  }

  // ---------------------------------------------------------------- what a history leaves

  /** Every entry in the store was written by some item, and every item's entries are there. */
  lemma {:induction false} ReplayKeys(p: Primitives, h: seq<Item>)
    requires forall i :: 0 <= i < |h| ==> SelfApart(p, h[i])
    ensures forall e :: e in Replay(p, h) <==>
      exists i :: 0 <= i < |h| && (e in RewardSet(p, h[i]) || e in OwnSet(p, h[i]))
  {
    hide RewardSet;
    hide OwnSet;
    hide SelfApart;
    hide ItemWrites;
    hide PutAll;
    if h != [] {
      var front, last := h[..|h| - 1], h[|h| - 1];
      ReplayKeys(p, front);
      PutAllKeys(Replay(p, front), ItemWrites(p, last));
      ItemEntries(p, last);
      forall e ensures e in Replay(p, h) <==>
        exists i :: 0 <= i < |h| && (e in RewardSet(p, h[i]) || e in OwnSet(p, h[i]))
      {
        assert h[|h| - 1] == last;
        if e in Replay(p, front) {
          var i :| 0 <= i < |front| && (e in RewardSet(p, front[i]) || e in OwnSet(p, front[i]));
          assert h[i] == front[i];
        }
        if i :| 0 <= i < |h| && (e in RewardSet(p, h[i]) || e in OwnSet(p, h[i])) {
          if i < |h| - 1 {
            assert front[i] == h[i];
          }
        }
      }
    }
  }

  lemma SeparatedFront(p: Primitives, h: seq<Item>)
    requires h != [] && Separated(p, h)
    ensures Separated(p, h[..|h| - 1])
    ensures OwnSet(p, h[|h| - 1]) !! Replay(p, h[..|h| - 1]).Keys
  {
    hide RewardSet;
    hide OwnSet;
    hide SelfApart;
    hide Replay;
    var front := h[..|h| - 1];
    assert forall i :: 0 <= i < |front| ==> Apart(p, h[i], h[|h| - 1]);
    ReplayKeys(p, front);
  }

  /** What a stored block wrote is still there, unchanged. */
  lemma {:induction false} OwnValue(p: Primitives, h: seq<Item>, i: nat, w: Write)
    requires i < |h| && h[i].Stored? && Separated(p, h)
    requires w in OwnWrites(p, h[i].block, h[i].txs)
    ensures w.entry in Replay(p, h) && Replay(p, h)[w.entry] == w.value
  {
    hide RewardSet;
    hide OwnSet;
    hide SelfApart;
    hide PutAll;
    hide OwnWrites;
    hide RewardWrites;
    var front, last := h[..|h| - 1], h[|h| - 1];
    if i == |h| - 1 {
      LastOwnValue(p, Replay(p, front), last, w);
    } else {
      SeparatedFront(p, h);
      OwnValue(p, front, i, w);
      PutAllKeys(Replay(p, front), ItemWrites(p, last));
      ItemEntries(p, last);
      OwnWriteEntry(p, h[i], w);
      assert Apart(p, h[i], last);
      assert w.entry !in EntrySet(Entries(ItemWrites(p, last)));
    }
  }

  lemma OwnWriteEntry(p: Primitives, item: Item, w: Write)
    requires item.Stored? && SelfApart(p, item) && w in OwnWrites(p, item.block, item.txs)
    ensures w.entry in OwnSet(p, item)
  {
    hide OwnWrites;
    hide OwnSet;
    OwnEntries(p, item);
    var ws := OwnWrites(p, item.block, item.txs);
    var k :| 0 <= k < |ws| && ws[k] == w;
    assert Entries(ws)[k] == w.entry;
  }

  lemma LastOwnValue(p: Primitives, s: Store, item: Item, w: Write)
    requires item.Stored? && SelfApart(p, item) && w in OwnWrites(p, item.block, item.txs)
    ensures w.entry in PutAll(s, ItemWrites(p, item)) && PutAll(s, ItemWrites(p, item))[w.entry] == w.value
  {
    hide OwnWrites;
    hide RewardWrites;
    hide PutAll;
    hide SelfApart;
    var ws := OwnWrites(p, item.block, item.txs);
    OwnEntries(p, item);
    var k :| 0 <= k < |ws| && ws[k] == w;
    forall j | k < j < |ws| ensures ws[j].entry != w.entry {
      assert Entries(ws)[j] == ws[j].entry && Entries(ws)[k] == w.entry;
    }
    PutAllConcat(s, RewardWrites(p, item.block), ws);
    PutAllLast(PutAll(s, RewardWrites(p, item.block)), ws, k);
  }

  // ---------------------------------------------------------------- deleting one block

  lemma {:induction false} PutDelCommute(s: Store, x: set<Entry>, ws: seq<Write>)
    requires x !! EntrySet(Entries(ws))
    ensures PutAll(s, ws) - x == PutAll(s - x, ws)
  {
    if ws != [] {
      var front, last := ws[..|ws| - 1], ws[|ws| - 1];
      assert Entries(ws) == Entries(front) + [last.entry];
      PutDelCommute(s, x, front);
      assert last.entry !in x;
      assert PutAll(s, ws) - x == (PutAll(s, front) - x)[last.entry := last.value];
    }
  }

  lemma PutThenDel(s: Store, ws: seq<Write>)
    requires forall e :: e in Entries(ws) ==> e !in s
    ensures PutAll(s, ws) - EntrySet(Entries(ws)) == s
  {
    hide PutAll;
    PutAllKeys(s, ws);
    var t := PutAll(s, ws) - EntrySet(Entries(ws));
    assert t.Keys == s.Keys;
    assert forall e :: e in t ==> t[e] == s[e];
  }

  /** Removing what a stored block owns leaves the history in which only its residue remains. */
  lemma {:induction false} RemoveOwn(p: Primitives, h: seq<Item>, i: nat)
    requires i < |h| && h[i].Stored? && Separated(p, h)
    ensures Replay(p, h) - OwnSet(p, h[i]) == Replay(p, h[i := Residue(h[i].block)])
  {
    hide RewardSet;
    hide OwnSet;
    hide SelfApart;
    hide PutAll;
    hide OwnWrites;
    hide RewardWrites;
    var front, last := h[..|h| - 1], h[|h| - 1];
    var h' := h[i := Residue(h[i].block)];
    SeparatedFront(p, h);
    if i == |h| - 1 {
      assert h'[..|h| - 1] == front;
      RemoveLastOwn(p, Replay(p, front), last);
    } else {
      assert h'[..|h| - 1] == front[i := Residue(h[i].block)];
      RemoveOwn(p, front, i);
      ItemEntries(p, last);
      assert Apart(p, h[i], last);
      PutDelCommute(Replay(p, front), OwnSet(p, h[i]), ItemWrites(p, last));
    }
  }

  lemma RemoveLastOwn(p: Primitives, s: Store, item: Item)
    requires item.Stored? && SelfApart(p, item)
    requires OwnSet(p, item) !! s.Keys
    ensures PutAll(s, ItemWrites(p, item)) - OwnSet(p, item) == PutAll(s, ItemWrites(p, Residue(item.block)))
  {
    hide PutAll;
    hide OwnWrites;
    hide RewardWrites;
    hide BlockDeletes;
    var rs, ws := RewardWrites(p, item.block), OwnWrites(p, item.block, item.txs);
    OwnEntries(p, item);
    PutAllConcat(s, rs, ws);
    PutAllKeys(s, rs);
    assert rs + [] == rs;
    PutThenDel(PutAll(s, rs), ws);
  }

  /** What a member writes is among what the members write. */
  lemma {:induction false} TxWriteIn(p: Primitives, txs: seq<ChainTx>, blockHash: Key, i: nat, w: Write)
    requires i < |txs| && w in TxWrites(p, txs[i], blockHash)
    ensures w in TxsWrites(p, txs, blockHash)
  {
    hide TxWrites;
    if i < |txs| - 1 {
      TxWriteIn(p, txs[..|txs| - 1], blockHash, i, w);
    }
  }

  /** A stored block is found at its index, whatever was put before or after it. */
  lemma StoredReads(p: Primitives, h: seq<Item>, i: nat)
    requires i < |h| && h[i].Stored? && Separated(p, h) && Coherent(p, h[i].block, h[i].txs)
    ensures ReadBlockAt(Replay(p, h), h[i].block.index) == Ok((h[i].block, h[i].txs))
    ensures ReadBlock(Replay(p, h), B.Hash(p, h[i].block)) == Ok((h[i].block, h[i].txs))
  {
    hide B.Hash;
    hide B.FullBytes;
    hide Replay;
    hide TxsWrites;
    hide StoredTransaction;
    hide ReadBlock;
    hide ReadBlockAt;
    hide Separated;
    hide Coherent;
    var b, txs := h[i].block, h[i].txs;
    var s, blockHash := Replay(p, h), B.Hash(p, b);
    var hs := HeaderWrites(p, b);
    assert hs[0] in OwnWrites(p, b, txs) && hs[1] in OwnWrites(p, b, txs);
    OwnValue(p, h, i, hs[0]);
    OwnValue(p, h, i, hs[1]);
    forall k | 0 <= k < |txs|
      ensures Holds(s, TransactionEntry(p, txs[k]), StoredTransaction(txs[k], blockHash))
    {
      var w := TxWrites(p, txs[k], blockHash)[0];
      TxWriteIn(p, txs, blockHash, k, w);
      OwnValue(p, h, i, w);
    }
    ReadBlockBack(p, s, b, txs);
    ReadBlockAtBack(p, s, b, txs);
  }

  /** Deleting a stored block succeeds and leaves its residue. */
  lemma DeleteStored(p: Primitives, h: seq<Item>, i: nat)
    requires i < |h| && h[i].Stored? && Separated(p, h) && Coherent(p, h[i].block, h[i].txs)
    ensures AfterDelete(p, Replay(p, h), h[i].block.index) == Ok(Replay(p, h[i := Residue(h[i].block)]))
  {
    hide Replay;
    hide BlockDeletes;
    hide ReadBlockAt;
    hide RewardSet;
    hide Coherent;
    hide Apart;
    StoredReads(p, h, i);
    ReplayKeys(p, h);
    var es := BlockDeletes(p, h[i].block, h[i].txs);
    assert SelfApart(p, h[i]);
    forall e | e in es ensures e in Replay(p, h) {
      assert e in OwnSet(p, h[i]);
    }
    DelAllIff(Replay(p, h), es);
    RemoveOwn(p, h, i);
  }

  /** The stored blocks numbered above `low` up to `high` reduced to their residue. */
  function Strip(h: seq<Item>, low: nat, high: nat): (r: seq<Item>)
    ensures |r| == |h|
    ensures forall i :: 0 <= i < |h| ==>
      r[i] == if h[i].Stored? && low < h[i].block.index <= high then Residue(h[i].block) else h[i]
  {
    seq(|h|, i requires 0 <= i < |h| =>
      if h[i].Stored? && low < h[i].block.index <= high then Residue(h[i].block) else h[i])
  }

  lemma ResidueKeepsInvariant(p: Primitives, h: seq<Item>, i: nat)
    requires i < |h| && Separated(p, h) && AllCoherent(p, h)
    ensures Separated(p, h[i := Residue(h[i].block)]) && AllCoherent(p, h[i := Residue(h[i].block)])
  {
    hide Coherent;
    hide BlockDeletes;
    hide RewardWrites;
    var h' := h[i := Residue(h[i].block)];
    assert OwnSet(p, h'[i]) == {} && RewardSet(p, h'[i]) == RewardSet(p, h[i]);
    forall j, k | 0 <= j < k < |h'| ensures Apart(p, h'[j], h'[k]) {
      assert Apart(p, h[j], h[k]);
    }
    forall j | 0 <= j < |h'| ensures SelfApart(p, h'[j]) {
      assert SelfApart(p, h[j]);
    }
  }

  /** No two stored blocks have the same index. */
  lemma IndexesDiffer(p: Primitives, h: seq<Item>, i: nat, j: nat)
    requires i < j < |h| && h[i].Stored? && h[j].Stored? && Separated(p, h)
    ensures h[i].block.index != h[j].block.index
    ensures h[i].block.timestamp != h[j].block.timestamp
    ensures B.Hash(p, h[i].block) != B.Hash(p, h[j].block)
  {
    hide B.Hash;
    hide TxsDeletes;
    hide RewardSet;
    hide SelfApart;
    assert Apart(p, h[i], h[j]);
    HeaderOwned(p, h[i]);
    HeaderOwned(p, h[j]);
  }

  lemma HeaderOwned(p: Primitives, item: Item)
    requires item.Stored?
    ensures Entry(BLOCKS, B.Hash(p, item.block)) in OwnSet(p, item)
    ensures Entry(BLOCK_INDEXES, Index(item.block.index)) in OwnSet(p, item)
    ensures Entry(BLOCK_TIMESTAMPS, Index(item.block.timestamp)) in OwnSet(p, item)
  {
    hide B.Hash;
    hide TxsDeletes;
    var d := HeaderDeletes(p, item.block);
    assert d[0] in BlockDeletes(p, item.block, item.txs);
    assert d[1] in BlockDeletes(p, item.block, item.txs);
    assert d[2] in BlockDeletes(p, item.block, item.txs);
  }

  ghost predicate HasIndex(h: seq<Item>, k: nat) {
    exists i :: 0 <= i < |h| && h[i].Stored? && h[i].block.index == k
  }

  /** Deleting a run of indexes that are all stored strips exactly those blocks. */
  lemma {:induction false} RewindStrips(p: Primitives, h: seq<Item>, top: nat, target: uint64)
    requires Separated(p, h) && AllCoherent(p, h) && top < TWO_64
    requires forall k :: target < k <= top ==> HasIndex(h, k)
    ensures AfterRewind(p, Replay(p, h), top, target) == Ok(Replay(p, Strip(h, target, top)))
    ensures Separated(p, Strip(h, target, top)) && AllCoherent(p, Strip(h, target, top))
    decreases top
  {
    hide Replay;
    hide Separated;
    hide Coherent;
    hide AfterDelete;
    if top <= target {
      assert Strip(h, target, top) == h;
    } else {
      assert HasIndex(h, top);
      var i :| 0 <= i < |h| && h[i].Stored? && h[i].block.index == top;
      var h' := h[i := Residue(h[i].block)];
      DeleteStored(p, h, i);
      ResidueKeepsInvariant(p, h, i);
      forall k | target < k <= top - 1 ensures HasIndex(h', k) {
        assert HasIndex(h, k);
        var j :| 0 <= j < |h| && h[j].Stored? && h[j].block.index == k;
        assert h'[j] == h[j];
      }
      RewindStrips(p, h', top - 1, target);
      forall j | 0 <= j < |h| ensures Strip(h', target, top - 1)[j] == Strip(h, target, top)[j] {
        if j != i && h[j].Stored? {
          if j < i { IndexesDiffer(p, h, j, i); } else { IndexesDiffer(p, h, i, j); }
        }
      }
      assert Strip(h', target, top - 1) == Strip(h, target, top);
    }
  }
}
