/**
 Rewinding: the loop as intended restores the tables as they were right after the target block was
 put, up to what the rewards of removed blocks leave behind; the loop as shipped starts one past the
 tip of a chain numbered from 0 and never succeeds on one.
 */
module Rewinding {
  import opened Bytes
  import opened Crypto
  import opened Errors
  import opened Ordering
  import opened Lmdb
  import opened Tables
  import opened ReadBack
  import opened History
  import Tx = Transactions
  import B = Blocks

  // ---------------------------------------------------------------- counting blocks

  lemma {:induction false} TxsDeletesTables(p: Primitives, txs: seq<ChainTx>)
    ensures forall e :: e in TxsDeletes(p, txs) ==> e.table in {KEY_IMAGES, TRANSACTION_OUTPUTS, TRANSACTIONS}
  {
    hide Tx.Hash;
    hide Tx.OutputHash;
    hide StoredOutput;
    if txs != [] {
      TxsDeletesTables(p, txs[..|txs| - 1]);
    }
  }

  lemma RewardTables(p: Primitives, item: Item)
    ensures forall e :: e in RewardSet(p, item) ==>
      e.table == TRANSACTION_OUTPUTS || e == TransactionEntry(p, item.block.reward)
    ensures item.block.reward.Staker? ==> forall e :: e in RewardSet(p, item) ==> e.table == TRANSACTIONS
  {
    hide Tx.Hash;
    hide Tx.OutputHash;
    hide StoredTransaction;
    hide StoredOutput;
  }

  /** Of the block table, an item names its own hash if it is stored and nothing otherwise. */
  lemma BlockEntries(p: Primitives, item: Item)
    requires SelfApart(p, item)
    ensures forall k :: Entry(BLOCKS, k) in RewardSet(p, item) + OwnSet(p, item) <==>
      item.Stored? && k == B.Hash(p, item.block)
  {
    hide B.Hash;
    hide TxsDeletes;
    hide RewardSet;
    RewardTables(p, item);
    if item.Stored? {
      HeaderOwned(p, item);
      TxsDeletesTables(p, item.txs);
    }
  }

  lemma {:induction false} CountStored(p: Primitives, h: seq<Item>)
    requires Separated(p, h)
    ensures |TableKeys(Replay(p, h), BLOCKS)| == StoredCount(h)
  {
    hide Separated;
    hide SelfApart;
    hide RewardSet;
    hide OwnSet;
    hide PutAll;
    hide ItemWrites;
    hide B.Hash;
    if h == [] {
      assert TableKeys(Replay(p, h), BLOCKS) == {};
    } else {
      var front, last := h[..|h| - 1], h[|h| - 1];
      assert SelfApart(p, last) by { OneSelfApart(p, h, |h| - 1); }
      SeparatedFront(p, h);
      CountStored(p, front);
      var s := Replay(p, front);
      PutAllKeys(s, ItemWrites(p, last));
      ItemEntries(p, last);
      BlockEntries(p, last);
      var k := B.Hash(p, last.block);
      var before, after := TableKeys(s, BLOCKS), TableKeys(Replay(p, h), BLOCKS);
      forall x ensures x in after <==> x in before || (last.Stored? && x == k) {
        assert x in after <==> Entry(BLOCKS, x) in Replay(p, h);
        assert x in before <==> Entry(BLOCKS, x) in s;
      }
      if last.Stored? {
        assert Entry(BLOCKS, k) in RewardSet(p, last) + OwnSet(p, last);
        RewardTables(p, last);
        assert k !in before;
        assert after == before + {k};
      } else {
        assert after == before;
      }
    }
  }

  lemma OneSelfApart(p: Primitives, h: seq<Item>, i: nat)
    requires i < |h| && Separated(p, h)
    ensures SelfApart(p, h[i])
  {
  }

  // ---------------------------------------------------------------- the indexes of a chain

  lemma NumberedFront(h: seq<Item>, base: nat)
    requires h != [] && Numbered(h, base)
    ensures Numbered(h[..|h| - 1], base)
  {
    var front := h[..|h| - 1];
    assert forall i :: 0 <= i < |front| ==> front[..i] == h[..i];
  }

  /** The indexes in use are the consecutive ones from the base. */
  lemma {:induction false} NumberedIndexes(h: seq<Item>, base: nat)
    requires Numbered(h, base)
    ensures forall k: nat :: HasIndex(h, k) <==> base <= k < base + StoredCount(h)
  {
    if h != [] {
      var front, last := h[..|h| - 1], h[|h| - 1];
      NumberedFront(h, base);
      NumberedIndexes(front, base);
      forall k: nat ensures HasIndex(h, k) <==> HasIndex(front, k) || (last.Stored? && last.block.index == k) {
        if HasIndex(front, k) {
          var i :| 0 <= i < |front| && front[i].Stored? && front[i].block.index == k;
          assert h[i] == front[i];
        }
        if HasIndex(h, k) {
          var i :| 0 <= i < |h| && h[i].Stored? && h[i].block.index == k;
          assert i < |h| - 1 ==> front[i] == h[i];
        }
      }
    }
  }

  lemma {:induction false} StoredCountConcat(a: seq<Item>, b: seq<Item>)
    ensures StoredCount(a + b) == StoredCount(a) + StoredCount(b)
  {
    if b == [] {
      assert a + b == a;
    } else {
      assert (a + b)[..|a + b| - 1] == a + b[..|b| - 1];
      StoredCountConcat(a, b[..|b| - 1]);
    }
  }

  /** Whether an index is stored can be read off the index table. */
  lemma IndexStored(p: Primitives, h: seq<Item>, k: uint64)
    requires Separated(p, h)
    ensures Entry(BLOCK_INDEXES, Index(k)) in Replay(p, h) <==> HasIndex(h, k)
  {
    hide Replay;
    hide RewardSet;
    hide B.Hash;
    hide TxsDeletes;
    hide SelfApart;
    hide Apart;
    var e := Entry(BLOCK_INDEXES, Index(k));
    ReplayKeys(p, h);
    if e in Replay(p, h) {
      var i :| 0 <= i < |h| && (e in RewardSet(p, h[i]) || e in OwnSet(p, h[i]));
      RewardTables(p, h[i]);
      TxsDeletesTables(p, h[i].txs);
      assert e in HeaderDeletes(p, h[i].block);
      IndexOrder(k, h[i].block.index);
    }
    if HasIndex(h, k) {
      var i :| 0 <= i < |h| && h[i].Stored? && h[i].block.index == k;
      HeaderOwned(p, h[i]);
    }
  }

  // ---------------------------------------------------------------- undoing history

  /** What the rewards of the items wrote, in order. */
  function Residues(p: Primitives, h: seq<Item>): seq<Write> {
    if h == [] then [] else Residues(p, h[..|h| - 1]) + RewardWrites(p, h[|h| - 1].block)
  }

  ghost predicate AllResidue(h: seq<Item>) {
    forall i :: 0 <= i < |h| ==> h[i].Residue?
  }

  lemma {:induction false} ReplayResidues(p: Primitives, past: seq<Item>, rest: seq<Item>)
    requires AllResidue(rest)
    ensures Replay(p, past + rest) == PutAll(Replay(p, past), Residues(p, rest))
  {
    hide RewardWrites;
    hide PutAll;
    if rest == [] {
      assert past + rest == past;
      assert PutAll(Replay(p, past), []) == Replay(p, past) by { NoPuts(Replay(p, past)); }
    } else {
      var front, last := rest[..|rest| - 1], rest[|rest| - 1];
      assert (past + rest)[..|past + rest| - 1] == past + front;
      ReplayResidues(p, past, front);
      PutAllConcat(Replay(p, past), Residues(p, front), RewardWrites(p, last.block));
      assert RewardWrites(p, last.block) + [] == RewardWrites(p, last.block);
    }
  }

  lemma NoPuts(s: Store)
    ensures PutAll(s, []) == s
  {
  }

  lemma {:induction false} ResiduesSameBlocks(p: Primitives, a: seq<Item>, b: seq<Item>)
    requires |a| == |b| && forall i :: 0 <= i < |a| ==> a[i].block == b[i].block
    ensures Residues(p, a) == Residues(p, b)
  {
    hide RewardWrites;
    if a != [] {
      ResiduesSameBlocks(p, a[..|a| - 1], b[..|b| - 1]);
    }
  }

  ghost predicate StakerRewards(h: seq<Item>) {
    forall i :: 0 <= i < |h| ==> h[i].block.reward.Staker?
  }

  lemma {:induction false} StakerResidues(p: Primitives, h: seq<Item>)
    requires StakerRewards(h)
    ensures forall e :: e in Entries(Residues(p, h)) ==>
      exists i :: 0 <= i < |h| && e == TransactionEntry(p, h[i].block.reward)
  {
    hide RewardWrites;
    hide Tx.Hash;
    if h != [] {
      var front, last := h[..|h| - 1], h[|h| - 1];
      StakerResidues(p, front);
      StakerRewardWrites(p, last.block);
      EntriesConcat(Residues(p, front), RewardWrites(p, last.block));
      forall e | e in Entries(Residues(p, h))
        ensures exists i :: 0 <= i < |h| && e == TransactionEntry(p, h[i].block.reward)
      {
        if e in Entries(Residues(p, front)) {
          var i :| 0 <= i < |front| && e == TransactionEntry(p, front[i].block.reward);
          assert h[i] == front[i];
        } else {
          assert e == TransactionEntry(p, h[|h| - 1].block.reward);
        }
      }
    }
  }

  lemma StakerRewardWrites(p: Primitives, b: B.Block)
    requires b.reward.Staker?
    ensures Entries(RewardWrites(p, b)) == [TransactionEntry(p, b.reward)]
  {
    hide Tx.Hash;
    hide StoredTransaction;
  }

  lemma StoredIndexBounds(h: seq<Item>, base: nat, i: nat)
    requires Numbered(h, base) && i < |h| && h[i].Stored?
    ensures base + StoredCount(h[..i]) == h[i].block.index < base + StoredCount(h)
  {
    NumberedIndexes(h, base);
    assert HasIndex(h, h[i].block.index);
  }

  lemma PastAndFuture(past: seq<Item>, future: seq<Item>, base: nat, i: nat)
    requires i < |past + future|
    ensures StoredCount((past + future)[..i]) <= StoredCount(past) - (if i < |past| && past[i].Stored? then 1 else 0) ||
      i >= |past|
    ensures i >= |past| ==> StoredCount((past + future)[..i]) >= StoredCount(past)
  {
    var h := past + future;
    if i < |past| {
      assert past == (h[..i] + [past[i]]) + past[i + 1..];
      StoredCountConcat(h[..i] + [past[i]], past[i + 1..]);
      StoredCountConcat(h[..i], [past[i]]);
    } else {
      assert h[..i] == past + h[|past|..i];
      StoredCountConcat(past, h[|past|..i]);
    }
  }

  /** Stripping everything numbered above the blocks of `past` spares the past and strips the rest. */
  lemma StripFuture(past: seq<Item>, future: seq<Item>, base: nat, target: nat, top: nat)
    requires Numbered(past + future, base)
    requires StoredCount(past) > 0 && target == base + StoredCount(past) - 1
    requires top >= base + StoredCount(past + future) - 1
    ensures Strip(past + future, target, top)[..|past|] == past
    ensures AllResidue(Strip(past + future, target, top)[|past|..])
  {
    hide StoredCount;
    hide Numbered;
    var h := past + future;
    forall i | 0 <= i < |h| && h[i].Stored?
      ensures i < |past| ==> h[i].block.index <= target
      ensures i >= |past| ==> target < h[i].block.index <= top
    {
      StoredIndexBounds(h, base, i);
      PastAndFuture(past, future, base, i);
    }
  }

  /**
   Rewinding undoes history: rewinding a chain numbered from 0 to the last block of `past` gives the
   tables as they were when that block had been put, with only the rewards of the removed blocks
   written on top.
   */
  lemma RewindUndoes(p: Primitives, past: seq<Item>, future: seq<Item>, target: uint64)
    requires Separated(p, past + future) && AllCoherent(p, past + future) && Numbered(past + future, 0)
    requires StoredCount(past) == target + 1 && StoredCount(past + future) < TWO_64
    ensures |TableKeys(Replay(p, past + future), BLOCKS)| == StoredCount(past + future)
    ensures RewindAsIntended(p, Replay(p, past + future), StoredCount(past + future), target) ==
      Ok(PutAll(Replay(p, past), Residues(p, future)))
  {
    hide Replay;
    hide Separated;
    hide Coherent;
    hide AfterRewind;
    hide PutAll;
    hide Residues;
    hide StoredCount;
    var h := past + future;
    CountStored(p, h);
    var top := StoredCount(h) - 1;
    StoredCountConcat(past, future);
    NumberedIndexes(h, 0);
    assert HasIndex(h, target);
    IndexStored(p, h, target);
    RewindStrips(p, h, top, target);
    StripFuture(past, future, 0, target, top);
    var r := Strip(h, target, top);
    assert r == past + r[|past|..];
    ReplayResidues(p, past, r[|past|..]);
    ResiduesSameBlocks(p, r[|past|..], future);
  }

  /** What the rewards did not name is what it was. */
  lemma ResiduesTouchOnlyThemselves(p: Primitives, s: Store, future: seq<Item>, e: Entry)
    requires e !in Entries(Residues(p, future))
    ensures e in PutAll(s, Residues(p, future)) <==> e in s
    ensures e in s ==> PutAll(s, Residues(p, future))[e] == s[e]
  {
    hide PutAll;
    hide Residues;
    PutAllKeys(s, Residues(p, future));
  }

  /**
   When the removed blocks paid stakers, as every block after the first does, blocks, indexes,
   timestamps, key images and outputs are exactly as they were, and the transaction table differs at
   most at the hashes of the removed rewards.
   */
  lemma RewindUndoesAllButRewards(p: Primitives, past: seq<Item>, future: seq<Item>, e: Entry)
    requires StakerRewards(future)
    requires forall i :: 0 <= i < |future| ==> e != TransactionEntry(p, future[i].block.reward)
    ensures e in PutAll(Replay(p, past), Residues(p, future)) <==> e in Replay(p, past)
    ensures e in Replay(p, past) ==> PutAll(Replay(p, past), Residues(p, future))[e] == Replay(p, past)[e]
    ensures forall f :: f in Entries(Residues(p, future)) ==> f.table == TRANSACTIONS
  {
    hide Replay;
    hide PutAll;
    hide Residues;
    hide Tx.Hash;
    StakerResidues(p, future);
    PutAllKeys(Replay(p, past), Residues(p, future));
  }

  // ---------------------------------------------------------------- the loop as shipped

  /** On a chain numbered from 0 the first deletion already misses: nothing is ever rewound. */
  lemma ShippedRewindAlwaysFails(p: Primitives, h: seq<Item>, target: uint64)
    requires Separated(p, h) && AllCoherent(p, h) && Numbered(h, 0) && StoredCount(h) < TWO_64
    ensures |TableKeys(Replay(p, h), BLOCKS)| == StoredCount(h)
    ensures RewindAsShipped(p, Replay(p, h), StoredCount(h), target) == Err(DB_BLOCK_NOT_FOUND)
  {
    hide Replay;
    hide Separated;
    hide Coherent;
    CountStored(p, h);
    NumberedIndexes(h, 0);
    IndexStored(p, h, target);
    IndexStored(p, h, StoredCount(h));
    assert AfterDelete(p, Replay(p, h), StoredCount(h)) == Err(DB_BLOCK_NOT_FOUND);
  }

  /**
   The loop as shipped removes exactly the blocks above a stored target if and only if the chain is
   numbered from 1, or from a later number with the target already at the tip.
   */
  lemma ShippedRewindIff(p: Primitives, h: seq<Item>, base: nat, tip: nat, target: uint64)
    requires Separated(p, h) && AllCoherent(p, h) && Numbered(h, base)
    requires HasIndex(h, target) && StoredCount(h) < TWO_64
    requires tip + 1 == base + StoredCount(h) <= TWO_64
    ensures |TableKeys(Replay(p, h), BLOCKS)| == StoredCount(h)
    ensures
      (RewindAsShipped(p, Replay(p, h), StoredCount(h), target) ==
       Ok(Replay(p, Strip(h, target, tip)))) <==>
      (base == 1 || (base > 1 && target == tip))
  {
    hide Replay;
    hide Separated;
    hide Coherent;
    hide AfterRewind;
    hide Strip;
    hide StoredCount;
    CountStored(p, h);
    NumberedIndexes(h, base);
    IndexStored(p, h, target);
    var n := StoredCount(h);
    if base == 0 {
      ShippedRewindAlwaysFails(p, h, target);
    } else if n <= target {
      RewindStrips(p, h, n, target);
      assert Strip(h, target, n) == h;
      if target == tip {
        NothingAbove(h, target, tip);
      } else {
        StripRemoves(p, h, target, tip, tip);
        IndexStored(p, h, tip);
      }
    } else {
      RewindStrips(p, h, n, target);
      if base > 1 {
        StripRemoves(p, h, target, tip, tip);
        TipLeft(h, target, n, tip);
        IndexStored(p, Strip(h, target, n), tip);
      }
    }
  }

  lemma TipLeft(h: seq<Item>, target: nat, top: nat, tip: nat)
    requires HasIndex(h, tip) && top < tip
    ensures HasIndex(Strip(h, target, top), tip)
  {
    var i :| 0 <= i < |h| && h[i].Stored? && h[i].block.index == tip;
    assert Strip(h, target, top)[i] == h[i];
  }

  lemma NothingAbove(h: seq<Item>, target: nat, top: nat)
    requires forall k: nat :: HasIndex(h, k) ==> k <= target
    ensures Strip(h, target, top) == h
  {
    forall i | 0 <= i < |h| ensures Strip(h, target, top)[i] == h[i] {
      if h[i].Stored? {
        assert HasIndex(h, h[i].block.index);
      }
    }
  }

  lemma StripRemoves(p: Primitives, h: seq<Item>, target: uint64, top: nat, k: uint64)
    requires Separated(p, h) && AllCoherent(p, h) && target < k <= top < TWO_64
    requires forall j :: target < j <= top ==> HasIndex(h, j)
    ensures Entry(BLOCK_INDEXES, Index(k)) !in Replay(p, Strip(h, target, top))
  {
    hide Replay;
    hide Separated;
    hide Coherent;
    RewindStrips(p, h, top, target);
    IndexStored(p, Strip(h, target, top), k);
  }
}
