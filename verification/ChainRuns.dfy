/**
 Runs of the storage object itself, under any answers of LMDB: whatever fails, and wherever a rewind
 stops, the store stays the replay of a good history.
 */
module ChainRuns {
  import opened Bytes
  import opened ChainStorage
  import opened Crypto
  import opened Environments
  import opened Errors
  import opened History
  import opened Lmdb
  import opened Ordering
  import opened Retry
  import opened Rewinding
  import opened Runs
  import opened Tables
  import B = Blocks

  /** The rewind as shipped, on a chain numbered from 0: it fails at once and nothing has changed. */
  method RewindShipped(storage: BlockchainStorage, ghost h: seq<Item>, target: uint64, patience: nat)
    returns (r: Progress)
    requires storage.env.Valid() && storage.env.store == Replay(storage.p, h)
    requires Separated(storage.p, h) && AllCoherent(storage.p, h) && Numbered(h, 0) && StoredCount(h) < TWO_64
    modifies storage.env
    ensures storage.env.Valid() && storage.env.writers == old(storage.env.writers)
    ensures r == Returned(DB_BLOCK_NOT_FOUND) && storage.env.World() == old(storage.env.World())
  {
    hide Replay;
    hide Separated;
    hide AllCoherent;
    hide Numbered;
    hide StoredCount;
    hide AfterRewind;
    hide Environment.Valid;
    ShippedRewindMisses(storage.p, h, target);
    r := storage.Rewind(target, patience);
  }

  lemma ShippedRewindMisses(p: Primitives, h: seq<Item>, target: uint64)
    requires Separated(p, h) && AllCoherent(p, h) && Numbered(h, 0) && StoredCount(h) < TWO_64
    ensures |TableKeys(Replay(p, h), BLOCKS)| == StoredCount(h)
    ensures RewindAsShipped(p, Replay(p, h), StoredCount(h), target) == Err(DB_BLOCK_NOT_FOUND)
    ensures Entry(BLOCK_INDEXES, Index(target)) !in Replay(p, h) ||
      (StoredCount(h) > target && ReadBlockAt(Replay(p, h), StoredCount(h)).Err?)
  {
    hide Replay;
    hide Separated;
    hide AllCoherent;
    hide StoredCount;
    hide AfterRewind;
    ShippedRewindAlwaysFails(p, h, target);
    NumberedIndexes(h, 0);
    IndexStored(p, h, target);
    IndexStored(p, h, StoredCount(h));
  }

  // ---------------------------------------------------------------- any calls, any failures

  /** What may be called: a put that may follow, or any rewind. */
  ghost predicate Allowed(p: Primitives, h: seq<Item>, event: Event) {
    match event
    case PutEvent(b, txs) => CanFollow(p, h, b, txs)
    case RewindEvent(_) => StoredCount(h) < TWO_64
  }

  /** The histories a call may leave: the old one, the intended one, or a rewind that stopped early. */
  ghost predicate MayBecome(h: seq<Item>, event: Event, h': seq<Item>) {
    h' == h ||
    match event
    case PutEvent(b, txs) => h' == h + [Stored(b, txs)]
    case RewindEvent(target) =>
      StoredCount(h) > 0 && exists stop: uint64 ::
        target <= stop && HasIndex(h, stop) && h' == Strip(h, stop, StoredCount(h) - 1)
  }

  /**
   What is called next, with `n` calls to go, may depend on what the earlier ones have left in the store.
   It has to be allowed whatever that is.
   */
  type Policy = (nat, Store) -> Event

  ghost predicate AllowedPolicy(p: Primitives, h: seq<Item>, next: Policy, n: nat)
    decreases n
  {
    n == 0 ||
    var event := next(n, Replay(p, h));
    Allowed(p, h, event) && forall h' :: MayBecome(h, event, h') ==> AllowedPolicy(p, h', next, n - 1)
  }

  /** One call, under any answers: the history it leaves is good, and the intended one on success. */
  method PerformCall(storage: BlockchainStorage, ghost h: seq<Item>, event: Event, patience: nat)
    returns (r: Progress, ghost h': seq<Item>)
    requires storage.env.Valid() && storage.env.store == Replay(storage.p, h)
    requires Good(storage.p, h) && Allowed(storage.p, h, event)
    modifies storage.env
    ensures storage.env.Valid() && storage.env.writers == old(storage.env.writers)
    ensures Good(storage.p, h') && storage.env.store == Replay(storage.p, h') && MayBecome(h, event, h')
    ensures r == Returned(SUCCESS) ==> h' == HistoryAfter(h, event)
  {
    hide Good;
    hide Replay;
    hide CanFollow;
    hide StoredCount;
    hide Strip;
    hide HasIndex;
    hide AfterPut;
    hide Environment.Valid;
    hide StoppedEarly;
    hide RewindAsIntended;
    hide CheckPut;
    hide PutOps;
    hide Loop;
    match event
    case PutEvent(b, txs) =>
      var rounds;
      r, rounds := storage.PutBlock(b, txs, patience);
      OnePut(storage.p, h, b, txs);
      h' := if r == Returned(SUCCESS) then h + [Stored(b, txs)] else h;
    case RewindEvent(target) =>
      GoodCount(storage.p, h);
      r := storage.RewindFromTip(target, patience);
      h' := RewoundHistory(storage.p, h, target, r, storage.env.store);
  }

  lemma GoodCount(p: Primitives, h: seq<Item>)
    requires Good(p, h)
    ensures |TableKeys(Replay(p, h), BLOCKS)| == StoredCount(h)
  {
    hide Separated;
    CountStored(p, h);
  }

  /** The history behind the store that a rewind has left. */
  lemma RewoundHistory(p: Primitives, h: seq<Item>, target: uint64, r: Progress, after: Store)
    returns (h': seq<Item>)
    requires Good(p, h) && StoredCount(h) < TWO_64
    requires r == Returned(SUCCESS) ==> RewindAsIntended(p, Replay(p, h), StoredCount(h), target) == Ok(after)
    requires r != Returned(SUCCESS) ==>
      StoppedEarly(p, Replay(p, h), if StoredCount(h) == 0 then 0 else StoredCount(h) - 1, target, after)
    ensures Good(p, h') && after == Replay(p, h') && MayBecome(h, RewindEvent(target), h')
    ensures r == Returned(SUCCESS) ==> h' == HistoryAfter(h, RewindEvent(target))
  {
    hide Good;
    hide Replay;
    hide StoredCount;
    hide Strip;
    hide AfterRewind;
    h' := h;
    if r == Returned(SUCCESS) {
      RewindNeedsTarget(p, h, target);
      StripKeepsGood(p, h, target);
      h' := Strip(h, target, StoredCount(h) - 1);
    } else if after != Replay(p, h) {
      var tip := StoredCount(h) - 1;
      var stop: uint64 :| target < stop <= tip && AfterRewind(p, Replay(p, h), tip, stop) == Ok(after);
      StopHasIndex(p, h, stop);
      StripKeepsGood(p, h, stop);
      h' := Strip(h, stop, StoredCount(h) - 1);
    }
  }

  lemma RewindNeedsTarget(p: Primitives, h: seq<Item>, target: uint64)
    requires Good(p, h) && StoredCount(h) < TWO_64
    requires RewindAsIntended(p, Replay(p, h), StoredCount(h), target).Ok?
    ensures HasIndex(h, target)
  {
    hide Separated;
    hide AfterRewind;
    hide StoredCount;
    hide Replay;
    IndexStored(p, h, target);
  }

  lemma StopHasIndex(p: Primitives, h: seq<Item>, stop: uint64)
    requires Good(p, h) && stop < StoredCount(h) < TWO_64
    ensures HasIndex(h, stop)
    ensures RewindAsIntended(p, Replay(p, h), StoredCount(h), stop) ==
      AfterRewind(p, Replay(p, h), StoredCount(h) - 1, stop)
  {
    hide Separated;
    hide AfterRewind;
    hide StoredCount;
    hide Replay;
    NumberedIndexes(h, 0);
    IndexStored(p, h, stop);
  }

  /**
   Any number of puts and rewinds called on the storage object, each chosen in view of the store and each
   of which may succeed, fail or still be retrying: the store is always the replay of a good history, its
   tables agree, and nothing in it is spent or stored twice.
   */
  method RunCalls(storage: BlockchainStorage, ghost h: seq<Item>, next: Policy, n: nat, patience: nat)
    returns (ghost h': seq<Item>)
    requires storage.env.Valid() && storage.env.store == Replay(storage.p, h)
    requires Good(storage.p, h) && AllowedPolicy(storage.p, h, next, n)
    modifies storage.env
    ensures storage.env.Valid() && storage.env.writers == old(storage.env.writers)
    ensures Good(storage.p, h') && storage.env.store == Replay(storage.p, h')
    ensures TablesAgree(storage.env.store) && ImagesAgree(storage.env.store)
    ensures SpentOnce(storage.p, storage.env.store)
  {
    hide Good;
    hide Replay;
    hide Allowed;
    hide MayBecome;
    hide Environment.Valid;
    hide HistoryAfter;
    hide TablesAgree;
    hide ImagesAgree;
    hide SpentOnce;
    h' := h;
    var left := n;
    while left > 0
      invariant storage.env.Valid() && storage.env.writers == old(storage.env.writers)
      invariant Good(storage.p, h') && storage.env.store == Replay(storage.p, h')
      invariant AllowedPolicy(storage.p, h', next, left)
    {
      var event := next(left, storage.env.store);
      var r, after := PerformCall(storage, h', event, patience);
      h' := after;
      left := left - 1;
    }
    GoodTablesAgree(storage.p, h');
    GoodImagesAgree(storage.p, h');
    GoodSpentOnce(storage.p, h');
  }

  /**
   A put whose transaction is reported too large at every map size is still retrying after any number
   of rounds: the tables stay as they were, and each round has grown the map.
   */
  method PutNeverEnds(storage: BlockchainStorage, b: B.Block, txs: seq<ChainTx>, patience: nat)
    returns (r: Progress, rounds: nat)
    requires storage.env.Valid() && storage.env.writers == {} && CheckPut(storage.p, b, txs) == SUCCESS
    requires forall n, m :: storage.env.answer(n, m) == LMDB_TXN_FULL && storage.env.resize(n, m) == SUCCESS
    modifies storage.env
    ensures r == Retrying && rounds == patience && storage.env.store == old(storage.env.store)
    ensures storage.env.mapSize == old(storage.env.mapSize) + patience * storage.env.Growth()
  {
    hide CheckPut;
    hide BlockWrites;
    hide Loop;
    hide AfterPut;
    hide Environment.Growth;
    ghost var lm, w, ops := storage.env.Lm(), storage.env.World(), PutOps(BlockWrites(storage.p, b, txs));
    LoopIs(lm, true, w, ops, patience);
    TransactionFullForEver(lm, w, ops, patience);
    r, rounds := storage.PutBlock(b, txs, patience);
  }

  // ---------------------------------------------------------------- full maps and other errors

  /**
   A put on a map that is full, of either kind, until it has reached a size: the map is grown for as long
   as it is smaller and not once more, and then the block is put. It is still retrying exactly if the
   last attempt we watch is made on too small a map.
   */
  method PutUntilRoom(storage: BlockchainStorage, b: B.Block, txs: seq<ChainTx>, patience: nat, ghost enough: nat)
    returns (r: Progress, rounds: nat)
    requires storage.env.Valid() && storage.env.writers == {} && CheckPut(storage.p, b, txs) == SUCCESS
    requires FullBelow(storage.env.Lm(), enough)
    modifies storage.env
    ensures r == Retrying <==>
      patience == 0 || old(storage.env.mapSize) + (patience - 1) * storage.env.Growth() < enough
    ensures r != Retrying ==>
      && r == Returned(SUCCESS) && storage.env.mapSize >= enough
      && storage.env.store == AfterPut(storage.p, old(storage.env.store), b, txs)
    ensures storage.env.mapSize == old(storage.env.mapSize) + rounds * storage.env.Growth()
    ensures rounds > 0 ==> old(storage.env.mapSize) + (rounds - 1) * storage.env.Growth() < enough
  {
    hide BlockWrites;
    hide CheckPut;
    hide Apply;
    hide Loop;
    hide AfterPut;
    hide PutOps;
    hide FullBelow;
    hide Environment.Growth;
    ghost var lm, w, ops := storage.env.Lm(), storage.env.World(), PutOps(BlockWrites(storage.p, b, txs));
    GrowsUntilEnough(lm, w, ops, patience, enough);
    ApplyPuts(w.store, BlockWrites(storage.p, b, txs));
    r, rounds := storage.PutBlock(b, txs, patience);
  }

  /** The same for a deletion of a block that reads back; it may name an entry that is missing. */
  method DelUntilRoom(storage: BlockchainStorage, index: uint64, patience: nat, ghost enough: nat)
    returns (r: Progress, rounds: nat)
    requires storage.env.Valid() && storage.env.writers == {} && ReadBlockAt(storage.env.store, index).Ok?
    requires FullBelow(storage.env.Lm(), enough)
    modifies storage.env
    ensures r == Retrying <==>
      patience == 0 || old(storage.env.mapSize) + (patience - 1) * storage.env.Growth() < enough
    ensures r != Retrying ==> storage.env.mapSize >= enough
    ensures r != Retrying ==>
      match AfterDelete(storage.p, old(storage.env.store), index)
      case Ok(s) => r == Returned(SUCCESS) && storage.env.store == s
      case Err(e) => r == Returned(LMDB_NOTFOUND) && e == LMDB_NOTFOUND && storage.env.store == old(storage.env.store)
    ensures storage.env.mapSize == old(storage.env.mapSize) + rounds * storage.env.Growth()
    ensures rounds > 0 ==> old(storage.env.mapSize) + (rounds - 1) * storage.env.Growth() < enough
  {
    hide BlockDeletes;
    hide Apply;
    hide Loop;
    hide ReadBlockAt;
    hide AfterDelete;
    hide DelOps;
    hide FullBelow;
    hide Environment.Growth;
    ghost var lm, w := storage.env.Lm(), storage.env.World();
    ghost var (b, txs) := ReadBlockAt(storage.env.store, index).value;
    GrowsUntilEnough(lm, w, DelOps(BlockDeletes(storage.p, b, txs)), patience, enough);
    DeletionOutcome(storage.p, storage.env.store, index);
    r, rounds := storage.DelBlock(index, patience);
  }

  /** Deleting a block that reads back fails only by a missing entry. */
  lemma DeletionOutcome(p: Primitives, s: Store, index: uint64)
    requires ReadBlockAt(s, index).Ok?
    ensures
      var (b, txs) := ReadBlockAt(s, index).value;
      match Apply(s, DelOps(BlockDeletes(p, b, txs)))
      case Some(t) => AfterDelete(p, s, index) == Ok(t)
      case None => AfterDelete(p, s, index) == Err(LMDB_NOTFOUND)
  {
    hide Apply;
    hide DelOps;
    hide DelAll;
    hide BlockDeletes;
    hide ReadBlockAt;
    var (b, txs) := ReadBlockAt(s, index).value;
    ApplyDels(s, BlockDeletes(p, b, txs));
  }

  /**
   Any other error ends a put at once: the first answer that is neither success nor "full" is returned
   after the first attempt, whoever else is writing, and nothing has changed but the number of calls.
   */
  method PutStopsAt(storage: BlockchainStorage, b: B.Block, txs: seq<ChainTx>, patience: nat, ghost i: nat)
    returns (r: Progress, rounds: nat)
    requires storage.env.Valid() && CheckPut(storage.p, b, txs) == SUCCESS
    requires patience > 0 && i <= |BlockWrites(storage.p, b, txs)|
    requires var w := storage.env.World();
      && (forall n :: w.calls <= n < w.calls + i ==> storage.env.answer(n, w.mapSize) == SUCCESS)
      && storage.env.answer(w.calls + i, w.mapSize) !in {SUCCESS, LMDB_MAP_FULL, LMDB_TXN_FULL}
    modifies storage.env
    ensures r == Returned(storage.env.answer(old(storage.env.calls) + i, old(storage.env.mapSize))) && rounds == 0
    ensures storage.env.World() == old(storage.env.World()).(calls := old(storage.env.calls) + i + 1)
  {
    hide BlockWrites;
    hide CheckPut;
    hide Apply;
    hide Loop;
    hide AfterPut;
    hide Environment.Growth;
    ghost var w, ws := storage.env.World(), BlockWrites(storage.p, b, txs);
    ApplyPuts(w.store, ws);
    ApplyPrefix(w.store, PutOps(ws), i);
    OtherErrorReturned(storage.env.Lm(), storage.env.writers == {}, w, PutOps(ws), patience, i);
    r, rounds := storage.PutBlock(b, txs, patience);
  }

  /** And so it ends a deletion, provided no entry is missing before. */
  method DelStopsAt(storage: BlockchainStorage, index: uint64, patience: nat, ghost i: nat)
    returns (r: Progress, rounds: nat)
    requires storage.env.Valid() && patience > 0
    requires AfterDelete(storage.p, storage.env.store, index).Ok?
    requires var w := storage.env.World();
      var (b, txs) := ReadBlockAt(storage.env.store, index).value;
      && i <= |BlockDeletes(storage.p, b, txs)|
      && (forall n :: w.calls <= n < w.calls + i ==> storage.env.answer(n, w.mapSize) == SUCCESS)
      && storage.env.answer(w.calls + i, w.mapSize) !in {SUCCESS, LMDB_MAP_FULL, LMDB_TXN_FULL}
    modifies storage.env
    ensures r == Returned(storage.env.answer(old(storage.env.calls) + i, old(storage.env.mapSize))) && rounds == 0
    ensures storage.env.World() == old(storage.env.World()).(calls := old(storage.env.calls) + i + 1)
  {
    hide BlockDeletes;
    hide Apply;
    hide Loop;
    hide ReadBlockAt;
    hide DelAll;
    hide Environment.Growth;
    ghost var w := storage.env.World();
    ghost var (b, txs) := ReadBlockAt(storage.env.store, index).value;
    DeletionOutcome(storage.p, w.store, index);
    ghost var ops := DelOps(BlockDeletes(storage.p, b, txs));
    ApplyPrefix(w.store, ops, i);
    OtherErrorReturned(storage.env.Lm(), storage.env.writers == {}, w, ops, patience, i);
    r, rounds := storage.DelBlock(index, patience);
  }
}
