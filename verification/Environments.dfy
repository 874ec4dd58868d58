/**
 The environment and its write transactions as objects: the committed store, the memory map that can be
 too small, the counter of open write transactions, and transactions that work on a private copy.
 */
module Environments {
  import opened Bytes
  import opened Errors
  import opened Lmdb
  import opened Retry

  const MEBIBYTE := 1024 * 1024

  class Environment {
    const pageSize: nat
    const growthFactor: nat
    const answer: Answers
    /** What resizing the map answers. */
    const resize: Answers

    var store: Store
    var mapSize: nat
    var openTxns: nat
    var calls: nat
    /** The live write transactions. */
    ghost var writers: set<Transaction>

    /** The counter is the number of live write transactions. */
    ghost predicate Valid()
      reads this, writers
    {
      && pageSize > 0 && growthFactor > 0
      && openTxns == |writers|
      && forall t :: t in writers ==> t.env == this && t.live
    }

    constructor (pageSize: nat, growthFactor: nat, answer: Answers, resize: Answers)
      requires pageSize > 0 && growthFactor > 0
      ensures Valid() && writers == {} && World() == Retry.World(map[], growthFactor * MEBIBYTE, 0)
      ensures this.answer == answer && this.resize == resize
    {
      this.pageSize, this.growthFactor := pageSize, growthFactor;
      this.answer, this.resize := answer, resize;
      store, mapSize, openTxns, calls, writers := map[], growthFactor * MEBIBYTE, 0, 0, {};
    }

    function World(): World
      reads this
    {
      Retry.World(store, mapSize, calls)
    }

    function Lm(): Behaviour
      requires pageSize > 0
    {
      Behaviour(answer, resize, Growth())
    }

    /** `memory_to_pages`: pages covering `memory` bytes, rounded up. */
    function Pages(memory: nat): (n: nat)
      requires pageSize > 0
      ensures memory <= n * pageSize < memory + pageSize
    {
      var n := (memory + pageSize - 1) / pageSize;
      assert n * pageSize + (memory + pageSize - 1) % pageSize == memory + pageSize - 1;
      n
    }

    /** What one expansion adds to the map. */
    function Growth(): (n: nat)
      requires pageSize > 0
      ensures growthFactor * MEBIBYTE <= n < growthFactor * MEBIBYTE + pageSize
    {
      pageSize * Pages(growthFactor * MEBIBYTE)
    }

    /** One call into LMDB. */
    method Call() returns (e: ErrorCode)
      modifies `calls
      ensures e == answer(old(calls), mapSize) && calls == old(calls) + 1
    {
      e := answer(calls, mapSize);
      calls := calls + 1;
    }

    /** Grows the map by the growth factor; refused, with nothing done, exactly while some writer is live. */
    method Expand() returns (e: ErrorCode)
      requires Valid()
      modifies `mapSize, `calls
      ensures Valid()
      ensures writers != {} ==> e == LMDB_ERROR && World() == old(World())
      ensures writers == {} ==> e == resize(old(calls), old(mapSize)) && calls == old(calls) + 1
      ensures writers == {} ==> mapSize == old(mapSize) + if e == SUCCESS then Growth() else 0
    {
      if openTxns != 0 {
        return LMDB_ERROR;
      }
      e := resize(calls, mapSize);
      calls := calls + 1;
      if e == SUCCESS {
        mapSize := pageSize * Pages(growthFactor * MEBIBYTE) + mapSize;
      }
    }
  }

  class Transaction {
    const env: Environment
    var working: Store
    var live: bool
    var table: Table
    /** The store the private copy was taken from, the calls made until then, and what has been done since. */
    ghost const base: Store
    ghost const start: nat
    ghost var ops: seq<Operation>

    /** A transaction is live exactly while the environment counts it. */
    ghost predicate Counted()
      reads this, env, env.writers
    {
      env.Valid() && (live <==> this in env.writers)
    }

    /** The result `e` is that of performing `goal` since the transaction began. */
    ghost predicate Reports(e: ErrorCode, goal: seq<Operation>)
      reads this, env, env.writers
    {
      && live && Counted()
      && Perform(env.answer, env.mapSize, base, start, goal) == Outcome(e, working, env.calls)
      && (e == SUCCESS ==> ops == goal)
    }

    /** Live and without an error so far. */
    ghost predicate Open()
      reads this, env, env.writers
    {
      Reports(SUCCESS, ops)
    }

    constructor (env: Environment)
      requires env.Valid()
      modifies env`openTxns, env`writers
      ensures this.env == env && Open() && ops == [] && base == env.store && start == env.calls
      ensures env.writers == old(env.writers) + {this} && this !in old(env.writers)
    {
      this.env, working, live, table := env, env.store, true, BLOCKS;
      base, start, ops := env.store, env.calls, [];
      new;
      env.openTxns := env.openTxns + 1;
      env.writers := env.writers + {this};
    }

    method SetDatabase(t: Table)
      modifies `table
      ensures table == t
    {
      table := t;
    }

    method Put(key: Data, value: Data) returns (e: ErrorCode)
      requires Open()
      modifies `working, `ops, env`calls
      ensures Reports(e, old(ops) + [Putting(Write(Entry(table, key), value))])
      ensures e != SUCCESS ==> working == old(working)
    {
      hide Perform;
      PerformSnoc(env.answer, env.mapSize, base, start, ops, Putting(Write(Entry(table, key), value)));
      e := env.Call();
      if e == SUCCESS {
        working := working[Entry(table, key) := value];
        ops := ops + [Putting(Write(Entry(table, key), value))];
      }
    }

    method Del(key: Data) returns (e: ErrorCode)
      requires Open()
      modifies `working, `ops, env`calls
      ensures Reports(e, old(ops) + [Deleting(Entry(table, key))])
      ensures e != SUCCESS ==> working == old(working)
    {
      hide Perform;
      PerformSnoc(env.answer, env.mapSize, base, start, ops, Deleting(Entry(table, key)));
      e := env.Call();
      if e == SUCCESS {
        if Entry(table, key) !in working {
          return LMDB_NOTFOUND;
        }
        working := working - {Entry(table, key)};
        ops := ops + [Deleting(Entry(table, key))];
      }
    }

    /** Drops the private copy; does nothing on a transaction that is already closed. */
    method Abort()
      requires Counted()
      modifies `live, env`openTxns, env`writers
      ensures Counted() && !live && env.writers == old(env.writers) - {this}
    {
      if live {
        Unregister();
      }
    }

    method Unregister()
      requires live && Counted()
      modifies `live, env`openTxns, env`writers
      ensures Counted() && !live && env.writers == old(env.writers) - {this}
    {
      if env.openTxns > 0 {
        env.openTxns := env.openTxns - 1;
      }
      env.writers := env.writers - {this};
      live := false;
    }

    /** Makes the private copy the store, or fails and leaves the store alone; closed either way. */
    method Commit() returns (e: ErrorCode)
      requires Counted()
      modifies `live, env`store, env`openTxns, env`calls, env`writers
      ensures Counted() && !live && env.writers == old(env.writers) - {this}
      ensures e == if old(live) then env.answer(old(env.calls), env.mapSize) else LMDB_ERROR
      ensures env.calls == old(env.calls) + if old(live) then 1 else 0
      ensures env.store == if e == SUCCESS then working else old(env.store)
    {
      if !live {
        return LMDB_ERROR;
      }
      e := env.Call();
      if e == SUCCESS {
        env.store := working;
      }
      Unregister();
    }
  }

  // ---------------------------------------------------------------- runs of several transactions

  datatype Action = Begin | AbortOne(which: nat) | CommitOne(which: nat) | Resize

  /** The live ones among `txns`. */
  ghost function Live(txns: seq<Transaction>): set<Transaction>
    reads txns
  {
    set t | t in txns && t.live
  }

  /** The environment counts exactly the live ones of these transactions, all its own. */
  ghost predicate Tracked(env: Environment, txns: seq<Transaction>)
    reads env, env.writers, txns
  {
    env.Valid() && env.writers == Live(txns) && forall t :: t in txns ==> t.env == env
  }

  method BeginOne(env: Environment, txns: seq<Transaction>) returns (txn: Transaction)
    requires Tracked(env, txns)
    modifies env
    ensures fresh(txn) && Tracked(env, txns + [txn])
  {
    txn := new Transaction(env);
    assert forall t :: t in txns + [txn] <==> t in txns || t == txn;
  }

  method EndOne(env: Environment, txns: seq<Transaction>, txn: Transaction, commit: bool)
    requires Tracked(env, txns) && txn in txns
    modifies env, txn`live
    ensures Tracked(env, txns) && !txn.live
  {
    if commit {
      var _ := txn.Commit();
    } else {
      txn.Abort();
    }
  }

  /** An expansion is refused, with nothing done, exactly while one of the transactions is live. */
  method ResizeOne(env: Environment, txns: seq<Transaction>) returns (e: ErrorCode)
    requires Tracked(env, txns)
    modifies env
    ensures Tracked(env, txns)
    ensures Live(txns) != {} ==> e == LMDB_ERROR && env.World() == old(env.World())
    ensures Live(txns) == {} ==> e == env.resize(old(env.calls), old(env.mapSize)) && env.calls == old(env.calls) + 1
  {
    e := env.Expand();
  }

  /**
   Any schedule of begins, aborts, commits and expansions over any number of transactions of one
   environment leaves the counter at the number of live ones.
   */
  method RunWriters(env: Environment, schedule: seq<Action>) returns (txns: seq<Transaction>)
    requires env.Valid() && env.writers == {}
    modifies env
    ensures Tracked(env, txns) && env.openTxns == |Live(txns)|
  {
    txns := [];
    for n := 0 to |schedule|
      invariant Tracked(env, txns)
      invariant forall i :: 0 <= i < |txns| ==> fresh(txns[i])
    {
      match schedule[n]
      case Begin =>
        var txn := BeginOne(env, txns);
        txns := txns + [txn];
      case AbortOne(i) =>
        if i < |txns| {
          EndOne(env, txns, txns[i], false);
        }
      case CommitOne(i) =>
        if i < |txns| {
          EndOne(env, txns, txns[i], true);
        }
      case Resize =>
        var _ := ResizeOne(env, txns);
    }
  }
}
