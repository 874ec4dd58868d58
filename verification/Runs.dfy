/**
 Every run of puts and rewinds from an empty store. A block may be put when its transactions validate
 against the store, spend nothing twice among themselves, and bring new outputs, the next index and a
 new timestamp; nothing is assumed of the hash function but that it does not collide on the
 transactions and blocks of the run.
 */
module Runs {
  import opened Bytes
  import opened Collections
  import opened Crypto
  import opened Errors
  import opened Ordering
  import opened Lmdb
  import opened Tables
  import opened ReadBack
  import opened History
  import opened Rewinding
  import opened Ledger
  import opened PaidOutputs
  import opened Acceptance
  import opened Validation
  import Tx = Transactions
  import B = Blocks

  // ---------------------------------------------------------------- when a block may follow

  /** A user transaction that validates, or a refund with a hash not seen before. */
  ghost predicate MemberValid(p: Primitives, s: Store, tx: ChainTx) {
    if tx.User? then ValidateUser(p, s, tx) == SUCCESS
    else tx.StakeRefund? && TransactionEntry(p, tx) !in s
  }

  ghost predicate NoSharedKeyImage(a: ChainTx, b: ChainTx) {
    forall k :: k in a.KeyImages() ==> k !in b.KeyImages()
  }

  ghost predicate NewOutputHashes(p: Primitives, s: Store, tx: ChainTx) {
    && Distinct(OutputHashes(p, tx.NewOutputs()))
    && forall k :: Pays(p, tx, k) ==> Entry(TRANSACTION_OUTPUTS, k) !in s
  }

  ghost predicate NoSharedOutput(p: Primitives, a: ChainTx, b: ChainTx) {
    forall k :: Pays(p, a, k) ==> !Pays(p, b, k)
  }

  ghost predicate MembersValid(p: Primitives, s: Store, b: B.Block, txs: seq<ChainTx>) {
    && (forall i :: 0 <= i < |txs| ==> MemberValid(p, s, txs[i]) && NewOutputHashes(p, s, txs[i]))
    && (forall i, j :: 0 <= i < j < |txs| ==> NoSharedKeyImage(txs[i], txs[j]) && NoSharedOutput(p, txs[i], txs[j]))
    && (forall i :: 0 <= i < |txs| ==> NoSharedOutput(p, txs[i], b.reward))
  }

  /** The hash function keeps apart the transactions it has to keep apart. */
  ghost predicate NoCollision(p: Primitives, a: ChainTx, b: ChainTx) {
    Tx.Hash(p, a) == Tx.Hash(p, b) ==> a == b
  }

  ghost predicate NoCollisions(p: Primitives, h: seq<Item>, b: B.Block, txs: seq<ChainTx>) {
    && (forall i :: 0 <= i < |txs| ==> NoCollision(p, txs[i], b.reward))
    && (forall i, j :: 0 <= i < |h| && 0 <= j < |txs| ==> NoCollision(p, h[i].block.reward, txs[j]))
    && (forall i, j, k :: 0 <= i < |h| && h[i].Stored? && 0 <= j < |h[i].txs| && 0 <= k < |txs| ==>
          NoCollision(p, h[i].txs[j], txs[k]))
    && (forall i, j :: 0 <= i < |h| && h[i].Stored? && 0 <= j < |h[i].txs| ==>
          NoCollision(p, h[i].txs[j], b.reward))
    && (forall i :: 0 <= i < |h| && h[i].Stored? && B.Hash(p, h[i].block) == B.Hash(p, b) ==> h[i].block == b)
  }

  ghost predicate CanFollow(p: Primitives, h: seq<Item>, b: B.Block, txs: seq<ChainTx>) {
    var s := Replay(p, h);
    && Coherent(p, b, txs)
    && MembersValid(p, s, b, txs)
    && NoCollisions(p, h, b, txs)
    && b.index == StoredCount(h)
    && Entry(BLOCK_TIMESTAMPS, Index(b.timestamp)) !in s
    && forall k :: Pays(p, b.reward, k) ==> Entry(TRANSACTION_OUTPUTS, k) !in s
  }

  /** What every reachable history satisfies. */
  ghost predicate Good(p: Primitives, h: seq<Item>) {
    Separated(p, h) && AllCoherent(p, h) && Numbered(h, 0) && AllMembers(h) && RewardsApart(p, h)
  }

  /** No output is paid by the rewards of two blocks, removed ones included. */
  ghost predicate RewardsApart(p: Primitives, h: seq<Item>) {
    forall i, j :: 0 <= i < j < |h| ==> NoSharedOutput(p, h[i].block.reward, h[j].block.reward)
  }

  /** Stored members are refunds or user transactions that spend something. */
  ghost predicate IsMember(tx: ChainTx) {
    tx.StakeRefund? || (tx.User? && tx.KeyImages() != [])
  }

  ghost predicate AllMembers(h: seq<Item>) {
    forall i, j :: 0 <= i < |h| && h[i].Stored? && 0 <= j < |h[i].txs| ==> IsMember(h[i].txs[j])
  }

  // ---------------------------------------------------------------- a put keeps histories good

  lemma ValidMember(p: Primitives, s: Store, tx: ChainTx)
    requires MemberValid(p, s, tx)
    ensures IsMember(tx) && Distinct(tx.KeyImages())
    ensures forall k :: k in tx.KeyImages() ==> Entry(KEY_IMAGES, k) !in s
  {
    hide CheckUser;
    if tx.User? {
      CheckedKeyImages(p, tx);
      forall k | k in tx.KeyImages() ensures Entry(KEY_IMAGES, k) !in s {
        var i :| 0 <= i < |tx.body.keyImages| && tx.body.keyImages[i] == k;
        assert !(Entry(KEY_IMAGES, tx.body.keyImages[i]) in s);
      }
    }
  }

  lemma TxDeletesDistinct(p: Primitives, tx: ChainTx)
    requires Distinct(tx.KeyImages()) && Distinct(OutputHashes(p, tx.NewOutputs()))
    ensures Distinct(TxDeletes(p, tx))
  {
    hide Tx.Hash;
    hide Tx.OutputHash;
    hide StoredOutput;
    var ks := Entries(KeyImageWrites(tx.KeyImages()));
    var os := Entries(OutputWrites(p, tx.NewOutputs(), tx.UnlockBlock()));
    var hs := OutputHashes(p, tx.NewOutputs());
    forall i, j | 0 <= i < j < |os| ensures os[i] != os[j] {
      assert hs[i] != hs[j];
    }
    DistinctConcat(ks, os);
    DistinctConcat(ks + os, [TransactionEntry(p, tx)]);
  }

  lemma {:induction false} TxsDeletesDistinct(p: Primitives, txs: seq<ChainTx>)
    requires forall i :: 0 <= i < |txs| ==> Distinct(TxDeletes(p, txs[i]))
    requires forall i, j :: 0 <= i < j < |txs| ==> NothingShared(p, txs[i], txs[j])
    ensures Distinct(TxsDeletes(p, txs))
  {
    hide TxDeletes;
    if txs != [] {
      var front, last := txs[..|txs| - 1], txs[|txs| - 1];
      TxsDeletesDistinct(p, front);
      forall e | e in TxsDeletes(p, front) ensures e !in TxDeletes(p, last) {
        TxsDeletesMember(p, front, e);
        var i :| 0 <= i < |front| && e in TxDeletes(p, front[i]);
        assert NothingShared(p, txs[i], txs[|txs| - 1]);
      }
      DistinctConcat(TxsDeletes(p, front), TxDeletes(p, last));
    }
  }

  ghost predicate NothingShared(p: Primitives, a: ChainTx, b: ChainTx) {
    forall e :: e in TxDeletes(p, a) ==> e !in TxDeletes(p, b)
  }

  lemma SharesNothing(p: Primitives, a: ChainTx, b: ChainTx)
    requires NoSharedKeyImage(a, b) && NoSharedOutput(p, a, b) && Tx.Hash(p, a) != Tx.Hash(p, b)
    ensures NothingShared(p, a, b)
  {
    hide Tx.Hash;
    hide TxDeletes;
    hide Pays;
    forall e | e in TxDeletes(p, a) ensures e !in TxDeletes(p, b) {
      TxDeletesByTable(p, a, e);
      TxDeletesByTable(p, b, e);
    }
  }

  lemma NewBlockDistinct(p: Primitives, s: Store, b: B.Block, txs: seq<ChainTx>)
    requires Coherent(p, b, txs) && MembersValid(p, s, b, txs)
    ensures Distinct(BlockDeletes(p, b, txs))
  {
    hide Tx.Hash;
    hide B.Hash;
    hide TxDeletes;
    hide MemberValid;
    hide NoSharedKeyImage;
    hide NoSharedOutput;
    hide NothingShared;
    HashesDistinct(p, b, txs);
    forall i | 0 <= i < |txs| ensures Distinct(TxDeletes(p, txs[i])) {
      ValidMember(p, s, txs[i]);
      TxDeletesDistinct(p, txs[i]);
    }
    forall i, j | 0 <= i < j < |txs| ensures NothingShared(p, txs[i], txs[j]) {
      assert TxHashes(p, txs)[i] != TxHashes(p, txs)[j];
      SharesNothing(p, txs[i], txs[j]);
    }
    TxsDeletesDistinct(p, txs);
    TxsDeletesTables(p, txs);
    DistinctConcat(TxsDeletes(p, txs), HeaderDeletes(p, b));
  }

  /** Nothing a new member owns is in the store yet. */
  lemma NewMemberFresh(p: Primitives, h: seq<Item>, b: B.Block, txs: seq<ChainTx>, k: nat, e: Entry)
    requires Good(p, h) && CanFollow(p, h, b, txs) && k < |txs| && e in TxDeletes(p, txs[k])
    ensures e !in Replay(p, h)
  {
    hide Replay;
    hide Separated;
    hide Coherent;
    hide Tx.Hash;
    hide TxDeletes;
    hide MemberValid;
    hide Pays;
    var s, tx := Replay(p, h), txs[k];
    TxDeletesByTable(p, tx, e);
    ValidMember(p, s, tx);
    if e == TransactionEntry(p, tx) && e in s {
      if tx.User? {
        NewHashFresh(p, h, b, txs, k);
      } else {
        RefundFresh(p, s, tx);
      }
    }
  }

  lemma RefundFresh(p: Primitives, s: Store, tx: ChainTx)
    requires !tx.User? && MemberValid(p, s, tx)
    ensures TransactionEntry(p, tx) !in s
  {
  }

  /** A validated user transaction is not stored: a stored one has spent its key images. */
  lemma NewHashFresh(p: Primitives, h: seq<Item>, b: B.Block, txs: seq<ChainTx>, k: nat)
    requires Good(p, h) && CanFollow(p, h, b, txs) && k < |txs| && txs[k].User?
    ensures TransactionEntry(p, txs[k]) !in Replay(p, h)
  {
    hide Replay;
    hide RewardSet;
    hide OwnSet;
    hide SelfApart;
    hide Apart;
    hide Coherent;
    hide Tx.Hash;
    hide TxDeletes;
    hide MemberValid;
    hide Pays;
    var s, tx, e := Replay(p, h), txs[k], TransactionEntry(p, txs[k]);
    ValidMember(p, s, tx);
    ReplayKeys(p, h);
    if e in s {
      var i :| 0 <= i < |h| && (e in RewardSet(p, h[i]) || e in OwnSet(p, h[i]));
      RewardSetByTable(p, h[i], e);
      assert NoCollision(p, h[i].block.reward, tx);
      OnlyStoredOwn(p, h[i], e);
      OwnSetByTable(p, h[i], e);
      var j :| 0 <= j < |h[i].txs| && e in TxDeletes(p, h[i].txs[j]);
      TxDeletesByTable(p, h[i].txs[j], e);
      assert NoCollision(p, h[i].txs[j], tx);
      assert h[i].txs[j] == tx;
      assert tx.KeyImages()[0] in h[i].txs[j].KeyImages();
      KeyImagesAgree(p, h, tx.KeyImages()[0]);
    }
  }

  /** The header entries of the next block are not in the store yet. */
  lemma NewHeaderFresh(p: Primitives, h: seq<Item>, b: B.Block, txs: seq<ChainTx>, e: Entry)
    requires Good(p, h) && CanFollow(p, h, b, txs) && e in HeaderDeletes(p, b)
    ensures e !in Replay(p, h)
  {
    hide Replay;
    hide Separated;
    hide Coherent;
    hide MembersValid;
    hide B.Hash;
    hide StoredCount;
    if e.table == BLOCK_INDEXES {
      IndexStored(p, h, b.index);
      NumberedIndexes(h, 0);
    } else if e.table == BLOCKS && e in Replay(p, h) {
      OwnedHeader(p, h, e);
      var i :| 0 <= i < |h| && h[i].Stored? && e in HeaderDeletes(p, h[i].block);
      assert h[i].block == b;
      StoredIndexBounds(h, 0, i);
    }
  }

  lemma NewOwnFresh(p: Primitives, h: seq<Item>, b: B.Block, txs: seq<ChainTx>)
    requires Good(p, h) && CanFollow(p, h, b, txs)
    ensures OwnSet(p, Stored(b, txs)) !! Replay(p, h).Keys
  {
    hide Replay;
    hide Good;
    hide CanFollow;
    hide OwnSet;
    hide TxDeletes;
    hide HeaderDeletes;
    var item := Stored(b, txs);
    forall e | e in OwnSet(p, item) ensures e !in Replay(p, h) {
      OwnSetByTable(p, item, e);
      if e in HeaderDeletes(p, b) {
        NewHeaderFresh(p, h, b, txs, e);
      } else {
        var k :| 0 <= k < |txs| && e in TxDeletes(p, txs[k]);
        NewMemberFresh(p, h, b, txs, k, e);
      }
    }
  }

  /** The reward of a new block touches nothing a stored block owns, nor anything the block owns. */
  lemma NewRewardApart(p: Primitives, h: seq<Item>, b: B.Block, txs: seq<ChainTx>, item: Item)
    requires Good(p, h) && CanFollow(p, h, b, txs)
    requires item == Stored(b, txs) || (item in h && item.Stored?)
    ensures OwnSet(p, item) !! RewardSet(p, Stored(b, txs))
  {
    hide Replay;
    hide Separated;
    hide Coherent;
    hide OwnSet;
    hide RewardSet;
    hide Tx.Hash;
    hide TxDeletes;
    hide MemberValid;
    hide Pays;
    hide StoredCount;
    var newest := Stored(b, txs);
    forall e | e in OwnSet(p, item) ensures e !in RewardSet(p, newest) {
      OwnSetByTable(p, item, e);
      RewardSetByTable(p, newest, e);
      if k :| 0 <= k < |item.txs| && e in TxDeletes(p, item.txs[k]) {
        TxDeletesByTable(p, item.txs[k], e);
        RewardMisses(p, h, b, txs, item, k, e);
      }
    }
  }

  lemma RewardMisses(p: Primitives, h: seq<Item>, b: B.Block, txs: seq<ChainTx>, item: Item, k: nat, e: Entry)
    requires Good(p, h) && CanFollow(p, h, b, txs)
    requires item == Stored(b, txs) || (item in h && item.Stored?)
    requires k < |item.txs| && e in TxDeletes(p, item.txs[k])
    ensures e != TransactionEntry(p, b.reward)
    ensures e.table == TRANSACTION_OUTPUTS ==> !Pays(p, b.reward, e.key)
  {
    hide Replay;
    hide Coherent;
    hide RewardSet;
    hide OwnSet;
    hide SelfApart;
    hide Apart;
    hide Tx.Hash;
    hide TxDeletes;
    hide MemberValid;
    hide Pays;
    hide StoredCount;
    var tx := item.txs[k];
    TxDeletesByTable(p, tx, e);
    if item == Stored(b, txs) {
      ValidMember(p, Replay(p, h), tx);
      assert NoCollision(p, txs[k], b.reward);
      assert NoSharedOutput(p, txs[k], b.reward);
    } else {
      var i :| 0 <= i < |h| && h[i] == item;
      assert IsMember(h[i].txs[k]) && NoCollision(p, h[i].txs[k], b.reward);
      OwnSetByTable(p, item, e);
      ReplayKeys(p, h);
      assert e in OwnSet(p, h[i]);
      assert e in Replay(p, h);
    }
  }

  lemma PutKeepsSeparated(p: Primitives, h: seq<Item>, b: B.Block, txs: seq<ChainTx>)
    requires Good(p, h) && CanFollow(p, h, b, txs)
    ensures Separated(p, h + [Stored(b, txs)])
  {
    hide Replay;
    hide RewardSet;
    hide OwnSet;
    hide Coherent;
    hide MembersValid;
    hide NoCollisions;
    hide BlockDeletes;
    hide StoredCount;
    var item := Stored(b, txs);
    var h' := h + [item];
    NewBlockDistinct(p, Replay(p, h), b, txs);
    NewOwnFresh(p, h, b, txs);
    NewRewardApart(p, h, b, txs, item);
    ReplayKeys(p, h);
    forall i | 0 <= i < |h| ensures Apart(p, h[i], item) {
      if h[i].Stored? {
        NewRewardApart(p, h, b, txs, h[i]);
      } else {
        ResidueOwnsNothing(p, h[i]);
      }
      assert forall e :: e in OwnSet(p, h[i]) ==> e in Replay(p, h).Keys;
      assert forall e :: e in RewardSet(p, h[i]) ==> e in Replay(p, h).Keys;
    }
    forall i, j | 0 <= i < j < |h'| ensures Apart(p, h'[i], h'[j]) {
      if j < |h| {
        assert Apart(p, h[i], h[j]);
      }
    }
    forall i | 0 <= i < |h'| ensures SelfApart(p, h'[i]) {
      if i < |h| {
        assert SelfApart(p, h[i]);
      }
    }
  }

  lemma ResidueOwnsNothing(p: Primitives, item: Item)
    requires item.Residue?
    ensures OwnSet(p, item) == {}
  {
  }

  lemma PutKeepsRewardsApart(p: Primitives, h: seq<Item>, b: B.Block, txs: seq<ChainTx>)
    requires Good(p, h) && CanFollow(p, h, b, txs)
    ensures RewardsApart(p, h + [Stored(b, txs)])
  {
    hide Replay;
    hide RewardSet;
    hide OwnSet;
    hide SelfApart;
    hide Apart;
    hide Coherent;
    hide MembersValid;
    hide NoCollisions;
    hide Pays;
    hide Tx.Hash;
    hide StoredCount;
    ReplayKeys(p, h);
    forall i, k | 0 <= i < |h| && Pays(p, h[i].block.reward, k) ensures !Pays(p, b.reward, k) {
      RewardSetByTable(p, h[i], Entry(TRANSACTION_OUTPUTS, k));
    }
    var h' := h + [Stored(b, txs)];
    forall i, j | 0 <= i < j < |h'| ensures NoSharedOutput(p, h'[i].block.reward, h'[j].block.reward) {
      if j < |h| {
        assert NoSharedOutput(p, h[i].block.reward, h[j].block.reward);
      }
    }
  }

  lemma PutKeepsGood(p: Primitives, h: seq<Item>, b: B.Block, txs: seq<ChainTx>)
    requires Good(p, h) && CanFollow(p, h, b, txs)
    ensures Good(p, h + [Stored(b, txs)])
  {
    hide Replay;
    hide Separated;
    hide Coherent;
    hide MemberValid;
    hide NoCollisions;
    hide StoredCount;
    PutKeepsSeparated(p, h, b, txs);
    PutKeepsRewardsApart(p, h, b, txs);
    hide RewardsApart;
    var h' := h + [Stored(b, txs)];
    forall j | 0 <= j < |txs| ensures IsMember(txs[j]) {
      ValidMember(p, Replay(p, h), txs[j]);
    }
    assert forall i :: 0 <= i < |h| ==> h'[..i] == h[..i];
    assert h'[..|h|] == h;
  }

  // ---------------------------------------------------------------- a rewind keeps histories good

  lemma StripKeepsNumbered(h: seq<Item>, target: nat, top: nat)
    requires Numbered(h, 0) && top + 1 >= StoredCount(h)
    ensures Numbered(Strip(h, target, top), 0)
  {
    hide StoredCount;
    var r := Strip(h, target, top);
    forall i | 0 <= i < |r| && r[i].Stored? ensures r[i].block.index == StoredCount(r[..i]) {
      StoredIndexBounds(h, 0, i);
      forall j | 0 <= j < i ensures r[..i][j] == h[..i][j] {
        if h[j].Stored? {
          EarlierIndexSmaller(h, j, i);
        }
      }
      assert r[..i] == h[..i];
    }
  }

  lemma EarlierIndexSmaller(h: seq<Item>, j: nat, i: nat)
    requires Numbered(h, 0) && j < i < |h| && h[i].Stored? && h[j].Stored?
    ensures h[j].block.index <= h[i].block.index
  {
    hide StoredCount;
    assert h[..i] == h[..j] + h[j..i];
    StoredCountConcat(h[..j], h[j..i]);
  }

  lemma StripKeepsGood(p: Primitives, h: seq<Item>, target: uint64)
    requires Good(p, h) && HasIndex(h, target) && StoredCount(h) < TWO_64
    ensures StoredCount(h) > 0
    ensures Good(p, Strip(h, target, StoredCount(h) - 1))
    ensures |TableKeys(Replay(p, h), BLOCKS)| == StoredCount(h)
    ensures RewindAsIntended(p, Replay(p, h), StoredCount(h), target) ==
      Ok(Replay(p, Strip(h, target, StoredCount(h) - 1)))
  {
    hide Replay;
    hide Separated;
    hide Coherent;
    hide AfterRewind;
    hide StoredCount;
    hide IsMember;
    NumberedIndexes(h, 0);
    CountStored(p, h);
    IndexStored(p, h, target);
    RewindStrips(p, h, StoredCount(h) - 1, target);
    StripKeepsNumbered(h, target, StoredCount(h) - 1);
  }

  // ---------------------------------------------------------------- runs

  datatype Event =
    | PutEvent(block: B.Block, txs: seq<ChainTx>)
    | RewindEvent(target: uint64)

  ghost predicate Admissible(p: Primitives, h: seq<Item>, event: Event) {
    match event
    case PutEvent(b, txs) => CanFollow(p, h, b, txs)
    case RewindEvent(target) => HasIndex(h, target) && StoredCount(h) < TWO_64
  }

  function HistoryAfter(h: seq<Item>, event: Event): seq<Item> {
    match event
    case PutEvent(b, txs) => h + [Stored(b, txs)]
    case RewindEvent(target) => if StoredCount(h) == 0 then h else Strip(h, target, StoredCount(h) - 1)
  }

  /** What the storage operation makes of the tables; `count` blocks are stored. */
  function StoreAfter(p: Primitives, s: Store, count: nat, event: Event): Store {
    match event
    case PutEvent(b, txs) => AfterPut(p, s, b, txs)
    case RewindEvent(target) =>
      if count >= TWO_64 then s
      else
        match RewindAsIntended(p, s, count, target)
        case Ok(t) => t
        case Err(_) => s
  }

  ghost predicate AdmissibleRun(p: Primitives, h: seq<Item>, events: seq<Event>)
    decreases |events|
  {
    events == [] || (Admissible(p, h, events[0]) && AdmissibleRun(p, HistoryAfter(h, events[0]), events[1..]))
  }

  function HistoryAfterRun(h: seq<Item>, events: seq<Event>): seq<Item>
    decreases |events|
  {
    if events == [] then h else HistoryAfterRun(HistoryAfter(h, events[0]), events[1..])
  }

  ghost function StoreAfterRun(p: Primitives, s: Store, events: seq<Event>): Store
    decreases |events|
  {
    if events == [] then s
    else StoreAfterRun(p, StoreAfter(p, s, |TableKeys(s, BLOCKS)|, events[0]), events[1..])
  }

  lemma OneStep(p: Primitives, h: seq<Item>, event: Event)
    requires Good(p, h) && Admissible(p, h, event)
    ensures Good(p, HistoryAfter(h, event))
    ensures StoreAfter(p, Replay(p, h), |TableKeys(Replay(p, h), BLOCKS)|, event) == Replay(p, HistoryAfter(h, event))
  {
    match event
    case PutEvent(b, txs) => OnePut(p, h, b, txs);
    case RewindEvent(target) => OneRewind(p, h, target);
  }

  lemma OnePut(p: Primitives, h: seq<Item>, b: B.Block, txs: seq<ChainTx>)
    requires Good(p, h) && CanFollow(p, h, b, txs)
    ensures Good(p, h + [Stored(b, txs)])
    ensures AfterPut(p, Replay(p, h), b, txs) == Replay(p, h + [Stored(b, txs)])
  {
    hide Good;
    hide CanFollow;
    hide TxWrites;
    hide TxsWrites;
    hide HeaderWrites;
    hide PutAll;
    PutKeepsGood(p, h, b, txs);
    var h' := h + [Stored(b, txs)];
    assert h'[..|h'| - 1] == h;
    assert ItemWrites(p, Stored(b, txs)) == BlockWrites(p, b, txs);
  }

  lemma OneRewind(p: Primitives, h: seq<Item>, target: uint64)
    requires Good(p, h) && HasIndex(h, target) && StoredCount(h) < TWO_64
    ensures Good(p, HistoryAfter(h, RewindEvent(target)))
    ensures StoreAfter(p, Replay(p, h), |TableKeys(Replay(p, h), BLOCKS)|, RewindEvent(target)) ==
      Replay(p, HistoryAfter(h, RewindEvent(target)))
  {
    hide Good;
    hide Replay;
    hide RewindAsIntended;
    hide StoredCount;
    StripKeepsGood(p, h, target);
  }

  /**
   Every run keeps the tables equal to the replay of a history in which nothing collides, blocks are
   numbered from 0 and every transaction is coherent; agreement of the tables and the absence of double
   spends follow for every reachable state.
   */
  lemma {:induction false} RunsStayGood(p: Primitives, h: seq<Item>, events: seq<Event>)
    requires Good(p, h) && AdmissibleRun(p, h, events)
    ensures Good(p, HistoryAfterRun(h, events))
    ensures StoreAfterRun(p, Replay(p, h), events) == Replay(p, HistoryAfterRun(h, events))
    decreases |events|
  {
    hide Good;
    hide Replay;
    hide Admissible;
    hide StoreAfter;
    hide HistoryAfter;
    if events != [] {
      OneStep(p, h, events[0]);
      RunsStayGood(p, HistoryAfter(h, events[0]), events[1..]);
    }
  }

  /** The statement for runs from the empty store, with what it says about the tables. */
  lemma EveryReachableState(p: Primitives, events: seq<Event>)
    requires AdmissibleRun(p, [], events)
    ensures
      var h := HistoryAfterRun([], events);
      && StoreAfterRun(p, map[], events) == Replay(p, h)
      && Good(p, h)
      && (forall i, a, j, b ::
            0 <= i < |h| && h[i].Stored? && 0 <= a < |h[i].txs| &&
            0 <= j < |h| && h[j].Stored? && 0 <= b < |h[j].txs| && (i != j || a != b) ==>
              && NoSharedKeyImage(h[i].txs[a], h[j].txs[b])
              && Tx.Hash(p, h[i].txs[a]) != Tx.Hash(p, h[j].txs[b]))
  {
    hide Coherent;
    hide Separated;
    hide AdmissibleRun;
    hide HistoryAfterRun;
    hide StoreAfterRun;
    hide Tx.Hash;
    assert Replay(p, []) == map[];
    EmptyIsGood(p);
    RunsStayGood(p, [], events);
    NothingTwice(p, HistoryAfterRun([], events));
  }

  /** In a good history nothing is spent twice and no transaction is stored twice. */
  lemma NothingTwice(p: Primitives, h: seq<Item>)
    requires Good(p, h)
    ensures forall i, a, j, b ::
      0 <= i < |h| && h[i].Stored? && 0 <= a < |h[i].txs| &&
      0 <= j < |h| && h[j].Stored? && 0 <= b < |h[j].txs| && (i != j || a != b) ==>
        && NoSharedKeyImage(h[i].txs[a], h[j].txs[b])
        && Tx.Hash(p, h[i].txs[a]) != Tx.Hash(p, h[j].txs[b])
  {
    hide Coherent;
    hide Separated;
    hide Tx.Hash;
    forall i, a, j, b | 0 <= i < |h| && h[i].Stored? && 0 <= a < |h[i].txs| &&
                        0 <= j < |h| && h[j].Stored? && 0 <= b < |h[j].txs| && (i != j || a != b)
      ensures NoSharedKeyImage(h[i].txs[a], h[j].txs[b]) && Tx.Hash(p, h[i].txs[a]) != Tx.Hash(p, h[j].txs[b])
    {
      NoDoubleSpend(p, h, i, a, j, b);
    }
  }

  /** What the readers find in a good history is what it stores. */
  lemma ReadsAreHistory(p: Primitives, h: seq<Item>, hash: Key)
    requires Good(p, h)
    ensures ReadBlock(Replay(p, h), hash).Ok? ==> exists i ::
      0 <= i < |h| && h[i].Stored? && B.Hash(p, h[i].block) == hash &&
      ReadBlock(Replay(p, h), hash) == Ok((h[i].block, h[i].txs))
    ensures forall i :: 0 <= i < |h| && h[i].Stored? ==>
      ReadBlock(Replay(p, h), B.Hash(p, h[i].block)) == Ok((h[i].block, h[i].txs))
    ensures forall i :: 0 <= i < |h| && h[i].Stored? ==>
      ReadBlockAt(Replay(p, h), h[i].block.index) == Ok((h[i].block, h[i].txs))
  {
    hide Replay;
    hide Separated;
    hide Coherent;
    hide ReadBlock;
    hide ReadBlockAt;
    hide B.Hash;
    hide B.FullBytes;
    forall i | 0 <= i < |h| && h[i].Stored?
      ensures ReadBlock(Replay(p, h), B.Hash(p, h[i].block)) == Ok((h[i].block, h[i].txs))
      ensures ReadBlockAt(Replay(p, h), h[i].block.index) == Ok((h[i].block, h[i].txs))
    {
      StoredReads(p, h, i);
    }
    if ReadBlock(Replay(p, h), hash).Ok? {
      ReadNeedsEntry(Replay(p, h), hash);
      HeadersAgree(p, h, hash, Replay(p, h)[Entry(BLOCKS, hash)]);
    }
  }

  lemma ReadNeedsEntry(s: Store, hash: Key)
    requires ReadBlock(s, hash).Ok?
    ensures Entry(BLOCKS, hash) in s
  {
  }

  // ---------------------------------------------------------------- what every good store satisfies

  /**
   The index table and the timestamp table point exactly at the blocks that read back with that index
   and that timestamp, and the stored indexes are those below the count.
   */
  ghost predicate TablesAgree(s: Store) {
    && (forall v: uint64, hash: Key :: Holds(s, Entry(BLOCK_INDEXES, Index(v)), hash) <==>
          ReadBlock(s, hash).Ok? && ReadBlock(s, hash).value.0.index == v)
    && (forall v: uint64, hash: Key :: Holds(s, Entry(BLOCK_TIMESTAMPS, Index(v)), hash) <==>
          ReadBlock(s, hash).Ok? && ReadBlock(s, hash).value.0.timestamp == v)
    && forall v: uint64 :: Entry(BLOCK_INDEXES, Index(v)) in s <==> v < |TableKeys(s, BLOCKS)|
  }

  /** The block at this index reads back with a transaction at this position. */
  predicate ReadsAt(s: Store, index: uint64, j: nat) {
    ReadBlockAt(s, index).Ok? && j < |ReadBlockAt(s, index).value.1|
  }

  function TransactionAt(s: Store, index: uint64, j: nat): ChainTx
    requires ReadsAt(s, index, j)
  {
    ReadBlockAt(s, index).value.1[j]
  }

  /** A key image is spent exactly when a block that reads back spends it. */
  ghost predicate ImagesAgree(s: Store) {
    forall k :: Entry(KEY_IMAGES, k) in s <==>
      exists index: uint64, j: nat ::
        ReadsAt(s, index, j) && TransactionAt(s, index, j).User? && k in TransactionAt(s, index, j).body.keyImages
  }

  /** Transactions at different places share neither a key image nor their hash. */
  ghost predicate SpentOnce(p: Primitives, s: Store) {
    forall i: uint64, a: nat, j: uint64, b: nat ::
      ReadsAt(s, i, a) && ReadsAt(s, j, b) && (i != j || a != b) ==>
      && NoSharedKeyImage(TransactionAt(s, i, a), TransactionAt(s, j, b))
      && Tx.Hash(p, TransactionAt(s, i, a)) != Tx.Hash(p, TransactionAt(s, j, b))
  }

  lemma GoodTablesAgree(p: Primitives, h: seq<Item>)
    requires Good(p, h)
    ensures TablesAgree(Replay(p, h))
  {
    hide Replay;
    hide Separated;
    hide Coherent;
    hide ReadBlock;
    hide StoredCount;
    hide B.Hash;
    hide B.FullBytes;
    hide Index;
    hide Holds;
    CountStored(p, h);
    NumberedIndexes(h, 0);
    forall v: uint64 ensures Entry(BLOCK_INDEXES, Index(v)) in Replay(p, h) <==> v < |TableKeys(Replay(p, h), BLOCKS)| {
      IndexStored(p, h, v);
    }
    forall v: uint64, hash: Key
      ensures Holds(Replay(p, h), Entry(BLOCK_INDEXES, Index(v)), hash) <==>
        ReadBlock(Replay(p, h), hash).Ok? && ReadBlock(Replay(p, h), hash).value.0.index == v
      ensures Holds(Replay(p, h), Entry(BLOCK_TIMESTAMPS, Index(v)), hash) <==>
        ReadBlock(Replay(p, h), hash).Ok? && ReadBlock(Replay(p, h), hash).value.0.timestamp == v
    {
      HeaderAgrees(p, h, v, hash);
    }
  }

  lemma HeaderAgrees(p: Primitives, h: seq<Item>, v: uint64, hash: Key)
    requires Good(p, h)
    ensures
      var s := Replay(p, h);
      && (Holds(s, Entry(BLOCK_INDEXES, Index(v)), hash) <==>
            ReadBlock(s, hash).Ok? && ReadBlock(s, hash).value.0.index == v)
      && (Holds(s, Entry(BLOCK_TIMESTAMPS, Index(v)), hash) <==>
            ReadBlock(s, hash).Ok? && ReadBlock(s, hash).value.0.timestamp == v)
  {
    hide Replay;
    hide Separated;
    hide Coherent;
    hide ReadBlock;
    hide StoredCount;
    hide B.Hash;
    hide B.FullBytes;
    HeadersAgree(p, h, Index(v), hash);
    ReadsAreHistory(p, h, hash);
    forall i | 0 <= i < |h| && h[i].Stored?
      ensures Index(v) == Index(h[i].block.index) ==> v == h[i].block.index
      ensures Index(v) == Index(h[i].block.timestamp) ==> v == h[i].block.timestamp
    {
      IndexOrder(v, h[i].block.index);
      IndexOrder(v, h[i].block.timestamp);
    }
  }

  /** Reading by index finds exactly what the history stores. */
  lemma ReadsAtHistory(p: Primitives, h: seq<Item>)
    requires Good(p, h)
    ensures forall i :: 0 <= i < |h| && h[i].Stored? ==>
      ReadBlockAt(Replay(p, h), h[i].block.index) == Ok((h[i].block, h[i].txs))
    ensures forall index: uint64 :: ReadBlockAt(Replay(p, h), index).Ok? ==> exists i ::
      0 <= i < |h| && h[i].Stored? && h[i].block.index == index &&
      ReadBlockAt(Replay(p, h), index) == Ok((h[i].block, h[i].txs))
  {
    hide Replay;
    hide Separated;
    hide Coherent;
    hide ReadBlockAt;
    hide ReadBlock;
    hide B.Hash;
    var s := Replay(p, h);
    forall i | 0 <= i < |h| && h[i].Stored?
      ensures ReadBlockAt(s, h[i].block.index) == Ok((h[i].block, h[i].txs))
    {
      ReadsAreHistory(p, h, B.Hash(p, h[i].block));
    }
    forall index: uint64 | ReadBlockAt(s, index).Ok?
      ensures exists i ::
        0 <= i < |h| && h[i].Stored? && h[i].block.index == index && ReadBlockAt(s, index) == Ok((h[i].block, h[i].txs))
    {
      ReadAtNeedsEntry(s, index);
      IndexStored(p, h, index);
    }
  }

  lemma GoodImagesAgree(p: Primitives, h: seq<Item>)
    requires Good(p, h)
    ensures ImagesAgree(Replay(p, h))
  {
    hide Replay;
    hide Separated;
    hide Coherent;
    hide ReadBlockAt;
    var s := Replay(p, h);
    ReadsAtHistory(p, h);
    forall k
      ensures Entry(KEY_IMAGES, k) in s <==>
        exists index: uint64, j: nat ::
          ReadsAt(s, index, j) && TransactionAt(s, index, j).User? && k in TransactionAt(s, index, j).body.keyImages
    {
      KeyImagesAgree(p, h, k);
      if i, j :| 0 <= i < |h| && h[i].Stored? && 0 <= j < |h[i].txs| &&
                 h[i].txs[j].User? && k in h[i].txs[j].body.keyImages {
        assert ReadsAt(s, h[i].block.index, j) && TransactionAt(s, h[i].block.index, j) == h[i].txs[j];
      }
    }
  }

  /**
   What any reward has paid reads back with its unlock block, even after its block was removed: each output
   of a genesis transaction, or of outputs with one hash the last.
   */
  lemma RewardOutputsRead(p: Primitives, h: seq<Item>, i: nat)
    requires Good(p, h) && i < |h|
    ensures
      match h[i].block.reward
      case Genesis(prefix, _, outputs) =>
        forall m: nat :: m < |outputs| && LastOfHash(p, outputs, m) ==>
          ReadOutput(Replay(p, h), p.sha3(Tx.EncodeOutput(outputs[m]))) == Ok((outputs[m], prefix.unlockBlock))
      case Staker(_, _, _) => true
  {
    hide Replay;
    hide Good;
    hide ReadOutput;
    hide Tx.EncodeOutput;
    if h[i].block.reward.Genesis? {
      var prefix, outputs := h[i].block.reward.prefix, h[i].block.reward.outputs;
      forall m: nat | m < |outputs| && LastOfHash(p, outputs, m)
        ensures ReadOutput(Replay(p, h), p.sha3(Tx.EncodeOutput(outputs[m]))) == Ok((outputs[m], prefix.unlockBlock))
      {
        var k := Tx.OutputHash(p, outputs[m]);
        assert LastOutput(p, outputs, k, outputs[m]);
        PaidByReward(p, h, i, k, outputs[m], prefix.unlockBlock);
      }
    }
  }

  /** No later output hashes alike. */
  ghost predicate LastOfHash(p: Primitives, outputs: seq<Tx.Output>, m: nat)
    requires m < |outputs|
  {
    forall n :: m < n < |outputs| ==> p.sha3(Tx.EncodeOutput(outputs[n])) != p.sha3(Tx.EncodeOutput(outputs[m]))
  }

  lemma PaidByReward(p: Primitives, h: seq<Item>, i: nat, k: Data, o: Tx.Output, unlockBlock: uint64)
    requires Good(p, h) && i < |h| && PaysOut(p, h[i].block.reward, k, o, unlockBlock)
    ensures ReadOutput(Replay(p, h), k) == Ok((o, unlockBlock))
  {
    hide Replay;
    hide Separated;
    hide AllCoherent;
    hide AllMembers;
    hide Numbered;
    hide ReadOutput;
    hide Pays;
    hide PaysOut;
    var reward := h[i].block.reward;
    OutputsAgree(p, h, k);
    PaysSomething(p, reward, k);
    forall j | i <= j < |h| ensures NonePays(p, if h[j].Stored? then h[j].txs else [], k) {
      MembersPayNothingElse(p, h, i, j, k);
    }
    RewardFirst(p, reward, if h[i].Stored? then h[i].txs else [], k);
    assert LastPays(p, Payers(h[i]), k, o, unlockBlock);
    forall j | i < j < |h| ensures NonePays(p, Payers(h[j]), k) {
      RewardFirst(p, h[j].block.reward, if h[j].Stored? then h[j].txs else [], k);
      assert NoSharedOutput(p, reward, h[j].block.reward);
    }
  }

  /** No stored member pays what some reward has paid. */
  lemma MembersPayNothingElse(p: Primitives, h: seq<Item>, i: nat, j: nat, k: Data)
    requires Separated(p, h) && i <= j < |h| && Pays(p, h[i].block.reward, k)
    ensures NonePays(p, if h[j].Stored? then h[j].txs else [], k)
  {
    hide RewardSet;
    hide OwnSet;
    hide TxDeletes;
    hide BlockDeletes;
    hide Tx.Hash;
    hide Pays;
    var e := Entry(TRANSACTION_OUTPUTS, k);
    RewardSetByTable(p, h[i], e);
    if h[j].Stored? {
      assert SelfApart(p, h[j]) && (i < j ==> Apart(p, h[i], h[j]));
      OwnSetByTable(p, h[j], e);
      forall n | 0 <= n < |h[j].txs| ensures !Pays(p, h[j].txs[n], k) {
        TxDeletesByTable(p, h[j].txs[n], e);
      }
    }
  }

  lemma GoodSpentOnce(p: Primitives, h: seq<Item>)
    requires Good(p, h)
    ensures SpentOnce(p, Replay(p, h))
  {
    hide Replay;
    hide Good;
    hide ReadBlockAt;
    hide Tx.Hash;
    hide NoSharedKeyImage;
    var s := Replay(p, h);
    ReadsAtHistory(p, h);
    NothingTwice(p, h);
    forall i: uint64, a: nat, j: uint64, b: nat | ReadsAt(s, i, a) && ReadsAt(s, j, b) && (i != j || a != b)
      ensures NoSharedKeyImage(TransactionAt(s, i, a), TransactionAt(s, j, b))
      ensures Tx.Hash(p, TransactionAt(s, i, a)) != Tx.Hash(p, TransactionAt(s, j, b))
    {
      var x :| 0 <= x < |h| && h[x].Stored? && h[x].block.index == i && ReadBlockAt(s, i) == Ok((h[x].block, h[x].txs));
      var y :| 0 <= y < |h| && h[y].Stored? && h[y].block.index == j && ReadBlockAt(s, j) == Ok((h[y].block, h[y].txs));
      assert TransactionAt(s, i, a) == h[x].txs[a] && TransactionAt(s, j, b) == h[y].txs[b];
    }
  }

  /** The statements for every store reached by a run from the empty store. */
  lemma ReachableStoreSound(p: Primitives, events: seq<Event>)
    requires AdmissibleRun(p, [], events)
    ensures
      var s := StoreAfterRun(p, map[], events);
      TablesAgree(s) && ImagesAgree(s) && SpentOnce(p, s)
  {
    hide *;
    EveryReachableState(p, events);
    var h := HistoryAfterRun([], events);
    GoodTablesAgree(p, h);
    GoodImagesAgree(p, h);
    GoodSpentOnce(p, h);
  }

  lemma ReadAtNeedsEntry(s: Store, index: uint64)
    requires ReadBlockAt(s, index).Ok?
    ensures Entry(BLOCK_INDEXES, Index(index)) in s
  {
  }

  // ---------------------------------------------------------------- rewinding a run

  predicate OnlyPuts(events: seq<Event>) {
    forall i :: 0 <= i < |events| ==> events[i].PutEvent?
  }

  function PutItems(events: seq<Event>): (items: seq<Item>)
    requires OnlyPuts(events)
    ensures |items| == |events|
    ensures forall i :: 0 <= i < |items| ==> items[i] == Stored(events[i].block, events[i].txs)
  {
    seq(|events|, i requires 0 <= i < |events| => Stored(events[i].block, events[i].txs))
  }

  lemma {:induction false} PutsAppend(h: seq<Item>, puts: seq<Event>)
    requires OnlyPuts(puts)
    ensures HistoryAfterRun(h, puts) == h + PutItems(puts)
    decreases |puts|
  {
    if puts == [] {
      assert h + PutItems(puts) == h;
    } else {
      PutsAppend(h + [Stored(puts[0].block, puts[0].txs)], puts[1..]);
      assert PutItems(puts) == [Stored(puts[0].block, puts[0].txs)] + PutItems(puts[1..]);
    }
  }

  /**
   Rewinding undoes a run: after any run and then any puts, `rewind` to the last block of the first
   run succeeds, and afterwards every entry is as it was before those puts, except what the rewards of
   the removed blocks own: their hashes, and the outputs of a reward that has any.
   */
  lemma RewindRestores(p: Primitives, events: seq<Event>, puts: seq<Event>, target: uint64, e: Entry)
    requires AdmissibleRun(p, [], events) && AdmissibleRun(p, HistoryAfterRun([], events), puts) && OnlyPuts(puts)
    requires |TableKeys(StoreAfterRun(p, map[], events), BLOCKS)| == target + 1
    requires target + 1 + |puts| < TWO_64
    requires forall i :: 0 <= i < |puts| ==> e !in TxDeletes(p, puts[i].block.reward)
    ensures
      var before := StoreAfterRun(p, map[], events);
      var after := StoreAfterRun(p, before, puts);
      && |TableKeys(after, BLOCKS)| == target + 1 + |puts|
      && var rewound := RewindAsIntended(p, after, |TableKeys(after, BLOCKS)|, target);
         rewound.Ok? && (e in rewound.value <==> e in before) && (e in before ==> rewound.value[e] == before[e])
  {
    hide *;
    var past, future := HistoryAfterRun([], events), PutItems(puts);
    EveryReachableState(p, events);
    RunsStayGood(p, past, puts);
    PutsAppend(past, puts);
    GoodParts(p, past);
    GoodParts(p, past + future);
    PutItemsCounted(puts);
    StoredCountConcat(past, future);
    CountStored(p, past);
    RewindUndoes(p, past, future, target);
    NotResidue(p, puts, e);
    ResiduesTouchOnlyThemselves(p, Replay(p, past), future, e);
  }

  lemma GoodParts(p: Primitives, h: seq<Item>)
    requires Good(p, h)
    ensures Separated(p, h) && AllCoherent(p, h) && Numbered(h, 0)
  {
    hide Separated;
  }

  lemma {:induction false} PutItemsCounted(puts: seq<Event>)
    requires OnlyPuts(puts)
    ensures StoredCount(PutItems(puts)) == |puts|
  {
    if puts != [] {
      PutItemsCounted(puts[..|puts| - 1]);
      var items := PutItems(puts);
      assert items[..|items| - 1] == PutItems(puts[..|puts| - 1]);
    }
  }

  lemma NotResidue(p: Primitives, puts: seq<Event>, e: Entry)
    requires OnlyPuts(puts) && forall i :: 0 <= i < |puts| ==> e !in TxDeletes(p, puts[i].block.reward)
    ensures e !in Entries(Residues(p, PutItems(puts)))
  {
    hide TxDeletes;
    hide Residues;
    if e in Entries(Residues(p, PutItems(puts))) {
      var i := ResidueOwner(p, PutItems(puts), e);
    }
  }

  lemma {:induction false} ResidueOwner(p: Primitives, h: seq<Item>, e: Entry) returns (i: nat)
    requires e in Entries(Residues(p, h))
    ensures i < |h| && e in TxDeletes(p, h[i].block.reward)
  {
    hide TxDeletes;
    hide TxWrites;
    hide B.Hash;
    var front, block := h[..|h| - 1], h[|h| - 1].block;
    EntriesConcat(Residues(p, front), RewardWrites(p, block));
    if e in Entries(Residues(p, front)) {
      i := ResidueOwner(p, front, e);
    } else {
      i := |h| - 1;
      PermutedTx(p, block.reward, B.Hash(p, block));
      assert e in multiset(Entries(TxWrites(p, block.reward, B.Hash(p, block))));
    }
  }

  /** A run may start with any well-formed block of index 0 that has no transactions but its reward. */
  lemma FirstBlockAdmissible(p: Primitives, b: B.Block)
    requires b.WellFormed() && b.index == 0 && b.transactions == []
    ensures AdmissibleRun(p, [], [PutEvent(b, [])])
  {
    hide B.Hash;
    hide Tx.Hash;
    assert TxHashes(p, []) == [];
    assert Replay(p, []) == map[];
    assert CanFollow(p, [], b, []);
    var events := [PutEvent(b, [])];
    assert Admissible(p, [], events[0]) && events[1..] == [];
  }

  lemma EmptyIsGood(p: Primitives)
    ensures Good(p, [])
  {
  }
}
