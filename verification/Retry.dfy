/**
 Write transactions and their retries as values. What LMDB answers to a call is an arbitrary function of
 the number of calls made so far and of the size of the map, so every pattern of failures is covered.
 An attempt performs its operations one by one and commits; the first answer other than success ends it.
 When that answer says that the map or the transaction is full, the map is grown and a new attempt made.
 */
module Retry {
  import opened Bytes
  import opened Errors
  import opened Lmdb

  type Answers = (nat, nat) -> ErrorCode

  /** The two results the retry macro reacts to. */
  predicate IsFull(e: ErrorCode) {
    e == LMDB_MAP_FULL || e == LMDB_TXN_FULL
  }

  datatype Operation = Putting(write: Write) | Deleting(entry: Entry)

  // ---------------------------------------------------------------- one attempt

  /** How far an attempt has come: its last result, its private copy, the calls made so far. */
  datatype Outcome = Outcome(error: ErrorCode, working: Store, calls: nat)

  function Step(answer: Answers, mapSize: nat, o: Outcome, op: Operation): Outcome {
    var e := answer(o.calls, mapSize);
    if e != SUCCESS then Outcome(e, o.working, o.calls + 1)
    else
      match op
      case Putting(w) => Outcome(SUCCESS, o.working[w.entry := w.value], o.calls + 1)
      case Deleting(x) =>
        if x in o.working then Outcome(SUCCESS, o.working - {x}, o.calls + 1)
        else Outcome(LMDB_NOTFOUND, o.working, o.calls + 1)
  }

  function Perform(answer: Answers, mapSize: nat, s: Store, calls: nat, ops: seq<Operation>): Outcome {
    if ops == [] then Outcome(SUCCESS, s, calls)
    else
      var o := Perform(answer, mapSize, s, calls, ops[..|ops| - 1]);
      if o.error != SUCCESS then o else Step(answer, mapSize, o, ops[|ops| - 1])
  }

  lemma PerformSnoc(answer: Answers, mapSize: nat, s: Store, calls: nat, ops: seq<Operation>, op: Operation)
    requires Perform(answer, mapSize, s, calls, ops).error == SUCCESS
    ensures Perform(answer, mapSize, s, calls, ops + [op]) ==
      Step(answer, mapSize, Perform(answer, mapSize, s, calls, ops), op)
  {
    assert (ops + [op])[..|ops|] == ops;
  }

  /** The first error is the last thing that happens. */
  lemma {:induction false} PerformStops(answer: Answers, mapSize: nat, s: Store, calls: nat,
                                        ops: seq<Operation>, more: seq<Operation>)
    requires Perform(answer, mapSize, s, calls, ops).error != SUCCESS
    ensures Perform(answer, mapSize, s, calls, ops + more) == Perform(answer, mapSize, s, calls, ops)
  {
    hide Step;
    if more == [] {
      assert ops + more == ops;
    } else {
      PerformStops(answer, mapSize, s, calls, ops, more[..|more| - 1]);
      assert (ops + more)[..|ops + more| - 1] == ops + more[..|more| - 1];
    }
  }

  function PutOps(ws: seq<Write>): (ops: seq<Operation>)
    ensures |ops| == |ws| && forall i :: 0 <= i < |ws| ==> ops[i] == Putting(ws[i])
  {
    seq(|ws|, i requires 0 <= i < |ws| => Putting(ws[i]))
  }

  function DelOps(es: seq<Entry>): (ops: seq<Operation>)
    ensures |ops| == |es| && forall i :: 0 <= i < |es| ==> ops[i] == Deleting(es[i])
  {
    seq(|es|, i requires 0 <= i < |es| => Deleting(es[i]))
  }

  lemma PutOpsConcat(a: seq<Write>, b: seq<Write>)
    ensures PutOps(a + b) == PutOps(a) + PutOps(b)
  {
  }

  lemma DelOpsConcat(a: seq<Entry>, b: seq<Entry>)
    ensures DelOps(a + b) == DelOps(a) + DelOps(b)
  {
  }

  // ---------------------------------------------------------------- what the answers decide

  /** What the operations make of a store when nothing fails; `None` when an entry is missing. */
  function Apply(s: Store, ops: seq<Operation>): Option<Store> {
    if ops == [] then Some(s)
    else
      var t :- Apply(s, ops[..|ops| - 1]);
      match ops[|ops| - 1]
      case Putting(w) => Some(t[w.entry := w.value])
      case Deleting(x) => if x in t then Some(t - {x}) else None
  }

  lemma {:induction false} ApplyPuts(s: Store, ws: seq<Write>)
    ensures Apply(s, PutOps(ws)) == Some(PutAll(s, ws))
  {
    if ws != [] {
      ApplyPuts(s, ws[..|ws| - 1]);
      assert PutOps(ws)[..|ws| - 1] == PutOps(ws[..|ws| - 1]);
    }
  }

  lemma {:induction false} ApplyDels(s: Store, es: seq<Entry>)
    ensures Apply(s, DelOps(es)) == DelAll(s, es)
  {
    if es != [] {
      ApplyDels(s, es[..|es| - 1]);
      assert DelOps(es)[..|es| - 1] == DelOps(es[..|es| - 1]);
    }
  }

  lemma {:induction false} ApplyPrefix(s: Store, ops: seq<Operation>, i: nat)
    requires i <= |ops| && Apply(s, ops).Some?
    ensures Apply(s, ops[..i]).Some?
  {
    if i < |ops| {
      assert ops[..|ops| - 1][..i] == ops[..i];
      ApplyPrefix(s, ops[..|ops| - 1], i);
    } else {
      assert ops[..i] == ops;
    }
  }

  /** The first `n` calls from `calls` on succeed. */
  predicate AllSucceed(answer: Answers, calls: nat, mapSize: nat, n: nat) {
    forall k | calls <= k < calls + n :: answer(k, mapSize) == SUCCESS
  }

  lemma AllSucceedSnoc(answer: Answers, calls: nat, mapSize: nat, n: nat)
    ensures AllSucceed(answer, calls, mapSize, n + 1) <==>
      AllSucceed(answer, calls, mapSize, n) && answer(calls + n, mapSize) == SUCCESS
  {
    if AllSucceed(answer, calls, mapSize, n + 1) {
      assert answer(calls + n, mapSize) == SUCCESS;
    }
  }

  lemma AllSucceedAt(answer: Answers, calls: nat, mapSize: nat, n: nat, j: nat)
    requires AllSucceed(answer, calls, mapSize, n) && j < n
    ensures answer(calls + j, mapSize) == SUCCESS
  {
  }

  /** The operations all succeed exactly when all answers do and no entry is missing. */
  lemma {:induction false} PerformSucceedsIff(answer: Answers, mapSize: nat, s: Store, calls: nat, ops: seq<Operation>)
    ensures Perform(answer, mapSize, s, calls, ops).error == SUCCESS <==>
      AllSucceed(answer, calls, mapSize, |ops|) && Apply(s, ops).Some?
    ensures Perform(answer, mapSize, s, calls, ops).error == SUCCESS ==>
      Perform(answer, mapSize, s, calls, ops) == Outcome(SUCCESS, Apply(s, ops).value, calls + |ops|)
  {
    if ops != [] {
      PerformSucceedsIff(answer, mapSize, s, calls, ops[..|ops| - 1]);
    }
  }

  /** Where operations fail: the first `i` succeed and the next one does not. */
  lemma {:induction false} PerformFailsAt(answer: Answers, mapSize: nat, s: Store, calls: nat, ops: seq<Operation>)
    returns (i: nat)
    requires Perform(answer, mapSize, s, calls, ops).error != SUCCESS
    ensures i < |ops| && AllSucceed(answer, calls, mapSize, i) && Apply(s, ops[..i]).Some?
    ensures Perform(answer, mapSize, s, calls, ops).calls == calls + i + 1
    ensures
      var e := answer(calls + i, mapSize);
      Perform(answer, mapSize, s, calls, ops).error ==
        if e != SUCCESS then e else LMDB_NOTFOUND
    ensures answer(calls + i, mapSize) == SUCCESS ==> Apply(s, ops[..i + 1]).None?
  {
    hide AllSucceed;
    var front := ops[..|ops| - 1];
    PerformSucceedsIff(answer, mapSize, s, calls, front);
    if Perform(answer, mapSize, s, calls, front).error != SUCCESS {
      i := PerformFailsAt(answer, mapSize, s, calls, front);
      assert front[..i] == ops[..i] && front[..i + 1] == ops[..i + 1];
    } else {
      i := |ops| - 1;
      assert ops[..i + 1] == ops;
    }
  }

  /** Operations and commit together; the copy becomes the store only if every answer is success. */
  function Attempt(answer: Answers, w: World, ops: seq<Operation>): Outcome {
    var o := Perform(answer, w.mapSize, w.store, w.calls, ops);
    if o.error != SUCCESS then o.(working := w.store)
    else
      var e := answer(o.calls, w.mapSize);
      Outcome(e, if e == SUCCESS then o.working else w.store, o.calls + 1)
  }

  /** The first answer of the attempt that is not success is number `i`, and it says full. */
  predicate FullAt(answer: Answers, w: World, ops: seq<Operation>, i: nat) {
    && i <= |ops| && AllSucceed(answer, w.calls, w.mapSize, i) && Apply(w.store, ops[..i]).Some?
    && answer(w.calls + i, w.mapSize) in {LMDB_MAP_FULL, LMDB_TXN_FULL}
  }

  /** An attempt is all or nothing: it succeeds exactly when every answer does and no entry is missing. */
  lemma AttemptSucceedsIff(answer: Answers, w: World, ops: seq<Operation>)
    ensures Attempt(answer, w, ops).error == SUCCESS <==>
      AllSucceed(answer, w.calls, w.mapSize, |ops| + 1) && Apply(w.store, ops).Some?
    ensures Attempt(answer, w, ops).error == SUCCESS ==> Apply(w.store, ops) == Some(Attempt(answer, w, ops).working)
    ensures Attempt(answer, w, ops).error != SUCCESS ==> Attempt(answer, w, ops).working == w.store
  {
    hide Perform;
    hide Apply;
    hide AllSucceed;
    PerformSucceedsIff(answer, w.mapSize, w.store, w.calls, ops);
    AllSucceedSnoc(answer, w.calls, w.mapSize, |ops|);
  }

  /** An attempt ends as full exactly when its first answer that is not success says so. */
  lemma AttemptFullIff(answer: Answers, w: World, ops: seq<Operation>)
    ensures Attempt(answer, w, ops).error in {LMDB_MAP_FULL, LMDB_TXN_FULL} <==>
      exists i: nat :: FullAt(answer, w, ops, i)
    ensures forall i: nat :: FullAt(answer, w, ops, i) ==>
      Attempt(answer, w, ops) == Outcome(answer(w.calls + i, w.mapSize), w.store, w.calls + i + 1)
  {
    hide Perform;
    hide Apply;
    hide AllSucceed;
    PerformSucceedsIff(answer, w.mapSize, w.store, w.calls, ops);
    var o := Perform(answer, w.mapSize, w.store, w.calls, ops);
    assert ops[..|ops|] == ops;
    if o.error != SUCCESS {
      var k := PerformFailsAt(answer, w.mapSize, w.store, w.calls, ops);
      FullStopsHere(answer, w, ops, k);
    } else {
      forall i: nat | FullAt(answer, w, ops, i) ensures i == |ops| {
        if i < |ops| {
          AllSucceedAt(answer, w.calls, w.mapSize, |ops|, i);
        }
      }
      assert answer(o.calls, w.mapSize) in {LMDB_MAP_FULL, LMDB_TXN_FULL} ==> FullAt(answer, w, ops, |ops|);
    }
  }

  /** The attempt fails at operation `k`: it is full exactly if the answer there says so. */
  lemma FullStopsHere(answer: Answers, w: World, ops: seq<Operation>, k: nat)
    requires k < |ops| && AllSucceed(answer, w.calls, w.mapSize, k) && Apply(w.store, ops[..k]).Some?
    requires answer(w.calls + k, w.mapSize) == SUCCESS ==> Apply(w.store, ops[..k + 1]).None?
    ensures FullAt(answer, w, ops, k) <==> answer(w.calls + k, w.mapSize) in {LMDB_MAP_FULL, LMDB_TXN_FULL}
    ensures forall i: nat :: FullAt(answer, w, ops, i) ==> i == k
  {
    hide Apply;
    hide AllSucceed;
    forall i: nat | FullAt(answer, w, ops, i) ensures i == k {
      if i > k {
        AllSucceedAt(answer, w.calls, w.mapSize, i, k);
        assert ops[..i][..k + 1] == ops[..k + 1];
        ApplyPrefix(w.store, ops[..i], k + 1);
      } else if i < k {
        AllSucceedAt(answer, w.calls, w.mapSize, k, i);
      }
    }
  }

  // ---------------------------------------------------------------- turns of the loop

  /** The committed store, the size of the map, and the calls made so far. */
  datatype World = World(store: Store, mapSize: nat, calls: nat)

  /** How LMDB behaves: its answers, what resizing the map answers, and what one expansion adds. */
  datatype Behaviour = Behaviour(answer: Answers, resize: Answers, growth: nat)

  datatype Turned = Turned(error: ErrorCode, again: bool, world: World)

  /**
   One turn of the loop: after a full attempt the map is grown and the loop starts over, unless we are
   not `alone`, that is some other writer is live, or the resize fails.
   */
  function Turn(lm: Behaviour, alone: bool, w: World, ops: seq<Operation>): Turned {
    Conclude(lm, alone, w.mapSize, Attempt(lm.answer, w, ops))
  }

  /** What follows an attempt that left `o`. */
  function Conclude(lm: Behaviour, alone: bool, mapSize: nat, o: Outcome): Turned {
    if !IsFull(o.error) || !alone then Turned(o.error, false, World(o.working, mapSize, o.calls))
    else if lm.resize(o.calls, mapSize) != SUCCESS then
      Turned(o.error, false, World(o.working, mapSize, o.calls + 1))
    else Turned(o.error, true, World(o.working, mapSize + lm.growth, o.calls + 1))
  }

  /**
   The loop starts over if and only if nobody else is writing, the first failing answer of the attempt
   says full, and the resize that follows it succeeds.
   */
  lemma TurnsAgainIff(lm: Behaviour, alone: bool, w: World, ops: seq<Operation>)
    ensures Turn(lm, alone, w, ops).again <==>
      alone && exists i: nat ::
        FullAt(lm.answer, w, ops, i) && lm.resize(w.calls + i + 1, w.mapSize) == SUCCESS
    ensures Turn(lm, alone, w, ops).again ==>
      && Turn(lm, alone, w, ops).world.store == w.store
      && Turn(lm, alone, w, ops).world.mapSize == w.mapSize + lm.growth
    ensures !Turn(lm, alone, w, ops).again ==> Turn(lm, alone, w, ops).world.mapSize == w.mapSize
  {
    hide FullAt;
    hide Attempt;
    AttemptSucceedsIff(lm.answer, w, ops);
    AttemptFullIff(lm.answer, w, ops);
  }

  /** Whether the operation has returned, or is still retrying when we stop watching. */
  datatype Progress = Returned(error: ErrorCode) | Retrying

  datatype Watched = Watched(progress: Progress, rounds: nat, world: World)

  /** The loop, watched for at most `patience` attempts; `rounds` of them started over. */
  function Loop(lm: Behaviour, alone: bool, w: World, ops: seq<Operation>, patience: nat): Watched
    decreases patience
  {
    if patience == 0 then Watched(Retrying, 0, w)
    else
      var t := Turn(lm, alone, w, ops);
      if !t.again then Watched(Returned(t.error), 0, t.world)
      else
        var rest := Loop(lm, alone, t.world, ops, patience - 1);
        rest.(rounds := rest.rounds + 1)
  }

  /** The world after `n` turns. */
  function WorldAt(lm: Behaviour, alone: bool, w: World, ops: seq<Operation>, n: nat): World
    decreases n
  {
    if n == 0 then w else WorldAt(lm, alone, Turn(lm, alone, w, ops).world, ops, n - 1)
  }

  /** Turn `k` starts over. */
  predicate Again(lm: Behaviour, alone: bool, w: World, ops: seq<Operation>, k: nat) {
    Turn(lm, alone, WorldAt(lm, alone, w, ops, k), ops).again
  }

  /**
   The exact number of rounds: the loop is still running after `patience` attempts if and only if each
   of them starts over, and otherwise it returns from the first that does not, with its error and world.
   */
  lemma {:induction false} LoopIs(lm: Behaviour, alone: bool, w: World, ops: seq<Operation>, patience: nat)
    ensures
      var l := Loop(lm, alone, w, ops, patience);
      && (l.progress.Retrying? <==> forall k :: 0 <= k < patience ==> Again(lm, alone, w, ops, k))
      && l.rounds <= patience
      && (forall k :: 0 <= k < l.rounds ==> Again(lm, alone, w, ops, k))
      && (l.progress.Retrying? ==> l.rounds == patience && l.world == WorldAt(lm, alone, w, ops, patience))
      && (l.progress.Returned? ==>
            var last := Turn(lm, alone, WorldAt(lm, alone, w, ops, l.rounds), ops);
            !Again(lm, alone, w, ops, l.rounds) && l.progress.error == last.error && l.world == last.world)
    decreases patience
  {
    hide Turn;
    if patience > 0 {
      var t := Turn(lm, alone, w, ops);
      assert WorldAt(lm, alone, w, ops, 0) == w;
      if t.again {
        LoopIs(lm, alone, t.world, ops, patience - 1);
        forall k: nat ensures Again(lm, alone, w, ops, k + 1) == Again(lm, alone, t.world, ops, k) {
        }
        forall k | 0 <= k < patience
          ensures Again(lm, alone, w, ops, k) == (k == 0 || Again(lm, alone, t.world, ops, k - 1))
        {
        }
      } else {
        assert !Again(lm, alone, w, ops, 0);
      }
    }
  }

  // ---------------------------------------------------------------- what the loop leaves behind

  /** All or nothing over any number of rounds, each of which has grown the map by the same amount. */
  lemma {:induction false} LoopLeaves(lm: Behaviour, alone: bool, w: World, ops: seq<Operation>, patience: nat)
    ensures
      var l := Loop(lm, alone, w, ops, patience);
      && l.world.mapSize == w.mapSize + l.rounds * lm.growth
      && (l.progress == Returned(SUCCESS) ==> Apply(w.store, ops) == Some(l.world.store))
      && (l.progress != Returned(SUCCESS) ==> l.world.store == w.store)
    decreases patience
  {
    hide Attempt;
    hide Apply;
    if patience > 0 {
      var t := Turn(lm, alone, w, ops);
      TurnsAgainIff(lm, alone, w, ops);
      AttemptSucceedsIff(lm.answer, w, ops);
      if t.again {
        LoopLeaves(lm, alone, t.world, ops, patience - 1);
        OneMore(Loop(lm, alone, t.world, ops, patience - 1).rounds, lm.growth);
      }
    }
  }

  lemma OneMore(n: nat, growth: nat)
    ensures (n + 1) * growth == n * growth + growth
  {
  }

  /** Worlds between rounds: the store untouched, the map grown once per round. */
  lemma {:induction false} WorldsBetween(lm: Behaviour, alone: bool, w: World, ops: seq<Operation>, n: nat)
    requires forall k :: 0 <= k < n ==> Again(lm, alone, w, ops, k)
    ensures WorldAt(lm, alone, w, ops, n).store == w.store
    ensures WorldAt(lm, alone, w, ops, n).mapSize == w.mapSize + n * lm.growth
  {
    hide Turn;
    LoopIs(lm, alone, w, ops, n);
    LoopLeaves(lm, alone, w, ops, n);
  }

  /**
   The loop ends, for some patience, if and only if some turn does not start over: at that turn another
   writer is live, or the first failing answer does not say full, or the resize fails.
   */
  lemma LoopEndsIff(lm: Behaviour, alone: bool, w: World, ops: seq<Operation>)
    ensures (exists patience :: Loop(lm, alone, w, ops, patience).progress.Returned?) <==>
      exists k: nat :: !TurnRepeats(lm, alone, WorldAt(lm, alone, w, ops, k), ops)
  {
    hide Turn;
    hide Loop;
    hide TurnRepeats;
    forall k: nat
      ensures Again(lm, alone, w, ops, k) == TurnRepeats(lm, alone, WorldAt(lm, alone, w, ops, k), ops)
    {
      RepeatsIff(lm, alone, WorldAt(lm, alone, w, ops, k), ops);
    }
    if patience :| Loop(lm, alone, w, ops, patience).progress.Returned? {
      LoopIs(lm, alone, w, ops, patience);
    }
    if k: nat :| !TurnRepeats(lm, alone, WorldAt(lm, alone, w, ops, k), ops) {
      LoopIs(lm, alone, w, ops, k + 1);
      assert !Again(lm, alone, w, ops, k);
      assert Loop(lm, alone, w, ops, k + 1).progress.Returned?;
    }
  }

  /** Nobody else writes, the first failing answer says full, the resize after it succeeds. */
  ghost predicate TurnRepeats(lm: Behaviour, alone: bool, w: World, ops: seq<Operation>) {
    alone && exists i: nat :: FullAt(lm.answer, w, ops, i) && lm.resize(w.calls + i + 1, w.mapSize) == SUCCESS
  }

  lemma RepeatsIff(lm: Behaviour, alone: bool, w: World, ops: seq<Operation>)
    ensures Turn(lm, alone, w, ops).again <==> TurnRepeats(lm, alone, w, ops)
  {
    hide Turn;
    hide FullAt;
    TurnsAgainIff(lm, alone, w, ops);
  }

  // ---------------------------------------------------------------- environments

  /** Nothing goes wrong except that the map or a transaction may be full. */
  ghost predicate Benign(lm: Behaviour) {
    forall n, m :: lm.answer(n, m) in {SUCCESS, LMDB_MAP_FULL, LMDB_TXN_FULL} && lm.resize(n, m) == SUCCESS
  }

  /** Where only "full" interferes and nobody else writes, a loop that returns has done its work. */
  lemma {:induction false} BenignLoop(lm: Behaviour, w: World, ops: seq<Operation>, patience: nat)
    requires Benign(lm) && Loop(lm, true, w, ops, patience).progress.Returned?
    ensures Loop(lm, true, w, ops, patience).progress.error ==
      if Apply(w.store, ops).Some? then SUCCESS else LMDB_NOTFOUND
    decreases patience
  {
    hide Attempt;
    hide Apply;
    hide FullAt;
    var t := Turn(lm, true, w, ops);
    TurnsAgainIff(lm, true, w, ops);
    if t.again {
      BenignLoop(lm, t.world, ops, patience - 1);
    } else {
      BenignAttempt(lm, w, ops);
    }
  }

  lemma BenignAttempt(lm: Behaviour, w: World, ops: seq<Operation>)
    requires Benign(lm)
    ensures Attempt(lm.answer, w, ops).error in {LMDB_MAP_FULL, LMDB_TXN_FULL} ||
      Attempt(lm.answer, w, ops).error == if Apply(w.store, ops).Some? then SUCCESS else LMDB_NOTFOUND
  {
    hide Perform;
    hide Apply;
    hide AllSucceed;
    PerformSucceedsIff(lm.answer, w.mapSize, w.store, w.calls, ops);
    if Perform(lm.answer, w.mapSize, w.store, w.calls, ops).error != SUCCESS {
      var k := PerformFailsAt(lm.answer, w.mapSize, w.store, w.calls, ops);
      if lm.answer(w.calls + k, w.mapSize) == SUCCESS && Apply(w.store, ops).Some? {
        ApplyPrefix(w.store, ops, k + 1);
      }
    }
  }

  /** While another writer is live the first full answer is the result: the map is not even resized. */
  lemma OthersBlockRetries(lm: Behaviour, alone: bool, w: World, ops: seq<Operation>, patience: nat)
    requires !alone && patience > 0
    ensures
      var o := Attempt(lm.answer, w, ops);
      Loop(lm, alone, w, ops, patience) == Watched(Returned(o.error), 0, World(o.working, w.mapSize, o.calls))
  {
    hide Attempt;
  }

  /** Where a large enough map is never reported full, the number of rounds is bounded. */
  lemma EnoughRoomEnds(lm: Behaviour, alone: bool, w: World, ops: seq<Operation>, patience: nat, enough: nat)
    requires forall n, m :: m >= enough ==> lm.answer(n, m) !in {LMDB_MAP_FULL, LMDB_TXN_FULL}
    ensures
      var l := Loop(lm, alone, w, ops, patience);
      && (l.rounds > 0 ==> w.mapSize + (l.rounds - 1) * lm.growth < enough)
      && (patience > 0 && w.mapSize + (patience - 1) * lm.growth >= enough ==> l.progress.Returned?)
  {
    hide Turn;
    var l := Loop(lm, alone, w, ops, patience);
    LoopIs(lm, alone, w, ops, patience);
    if l.rounds > 0 {
      var k := l.rounds - 1;
      WorldsBetween(lm, alone, w, ops, k);
      assert Again(lm, alone, w, ops, k);
      RepeatsIff(lm, alone, WorldAt(lm, alone, w, ops, k), ops);
    }
  }

  /**
   Where the size of the map alone decides the answers, nobody else writes and resizing works, the loop
   ends if and only if some size it comes to is not reported full.
   */
  lemma SizeDecidesEnd(lm: Behaviour, w: World, ops: seq<Operation>)
    requires forall n, k, m :: lm.answer(n, m) == lm.answer(k, m)
    requires forall n, m :: lm.resize(n, m) == SUCCESS
    ensures (exists patience :: Loop(lm, true, w, ops, patience).progress.Returned?) <==>
      exists k: nat :: AnswerAt(lm, w.mapSize, k) !in {LMDB_MAP_FULL, LMDB_TXN_FULL}
  {
    hide Turn;
    hide Loop;
    hide FullAt;
    if k: nat :| AnswerAt(lm, w.mapSize, k) !in {LMDB_MAP_FULL, LMDB_TXN_FULL} {
      LoopIs(lm, true, w, ops, k + 1);
      if Loop(lm, true, w, ops, k + 1).progress.Retrying? {
        WorldsBetween(lm, true, w, ops, k);
        assert Again(lm, true, w, ops, k);
        SizeRepeats(lm, WorldAt(lm, true, w, ops, k), ops);
        assert false;
      }
      assert Loop(lm, true, w, ops, k + 1).progress.Returned?;
    } else {
      forall patience ensures Loop(lm, true, w, ops, patience).progress.Retrying? {
        AlwaysFull(lm, w, ops, patience);
      }
    }
  }

  /** The answer of a map grown `k` times. */
  function AnswerAt(lm: Behaviour, mapSize: nat, k: nat): ErrorCode {
    lm.answer(0, mapSize + k * lm.growth)
  }

  lemma SizeRepeats(lm: Behaviour, w: World, ops: seq<Operation>)
    requires forall n, k, m :: lm.answer(n, m) == lm.answer(k, m)
    requires forall n, m :: lm.resize(n, m) == SUCCESS
    ensures Turn(lm, true, w, ops).again <==> lm.answer(0, w.mapSize) in {LMDB_MAP_FULL, LMDB_TXN_FULL}
  {
    hide Turn;
    TurnsAgainIff(lm, true, w, ops);
    if lm.answer(0, w.mapSize) in {LMDB_MAP_FULL, LMDB_TXN_FULL} {
      assert ops[..0] == [];
      assert FullAt(lm.answer, w, ops, 0);
    }
  }

  lemma {:induction false} AlwaysFull(lm: Behaviour, w: World, ops: seq<Operation>, patience: nat)
    requires forall n, k, m :: lm.answer(n, m) == lm.answer(k, m)
    requires forall n, m :: lm.resize(n, m) == SUCCESS
    requires forall k: nat :: AnswerAt(lm, w.mapSize, k) in {LMDB_MAP_FULL, LMDB_TXN_FULL}
    ensures Loop(lm, true, w, ops, patience) == Watched(Retrying, patience, WorldAt(lm, true, w, ops, patience))
    decreases patience
  {
    hide Turn;
    if patience > 0 {
      var t := Turn(lm, true, w, ops);
      assert AnswerAt(lm, w.mapSize, 0) == lm.answer(0, w.mapSize);
      SizeRepeats(lm, w, ops);
      TurnsAgainIff(lm, true, w, ops);
      forall k: nat ensures AnswerAt(lm, t.world.mapSize, k) in {LMDB_MAP_FULL, LMDB_TXN_FULL} {
        OneMore(k, lm.growth);
        assert AnswerAt(lm, t.world.mapSize, k) == AnswerAt(lm, w.mapSize, k + 1);
      }
      AlwaysFull(lm, t.world, ops, patience - 1);
    }
  }

  /** Every call is answered "full" while the map is smaller than `enough`, and with success from then on. */
  ghost predicate FullBelow(lm: Behaviour, enough: nat) {
    forall n: nat, m: nat ::
      && lm.resize(n, m) == SUCCESS
      && if m < enough then lm.answer(n, m) in {LMDB_MAP_FULL, LMDB_TXN_FULL} else lm.answer(n, m) == SUCCESS
  }

  /**
   A map that is full, of either kind, until it has reached a size: the loop grows it for as long as it
   is smaller and not once more, and then does its work or names the missing entry. It is still retrying
   exactly if the last attempt we watch is made on too small a map.
   */
  lemma {:induction false} GrowsUntilEnough(lm: Behaviour, w: World, ops: seq<Operation>, patience: nat, enough: nat)
    requires FullBelow(lm, enough)
    ensures
      var l := Loop(lm, true, w, ops, patience);
      && (l.progress.Retrying? <==> patience == 0 || w.mapSize + (patience - 1) * lm.growth < enough)
      && l.world.mapSize == w.mapSize + l.rounds * lm.growth
      && (l.rounds > 0 ==> w.mapSize + (l.rounds - 1) * lm.growth < enough)
      && (l.progress.Returned? ==>
            && l.world.mapSize >= enough
            && l.progress.error == if Apply(w.store, ops).Some? then SUCCESS else LMDB_NOTFOUND)
    decreases patience
  {
    hide Apply;
    hide Turn;
    hide FullBelow;
    if patience > 0 {
      var t := Turn(lm, true, w, ops);
      FullBelowTurn(lm, w, ops, enough);
      if t.again {
        GrowsUntilEnough(lm, t.world, ops, patience - 1, enough);
        var rest := Loop(lm, true, t.world, ops, patience - 1);
        OneMore(rest.rounds, lm.growth);
        if patience > 1 {
          OneMore(patience - 2, lm.growth);
        }
        if rest.rounds > 0 {
          OneMore(rest.rounds - 1, lm.growth);
        }
      } else {
        GrowthAdds(patience - 1, lm.growth);
      }
    }
  }

  lemma GrowthAdds(n: nat, growth: nat)
    ensures n * growth >= 0
  {
  }

  /** One turn on such a map. */
  lemma FullBelowTurn(lm: Behaviour, w: World, ops: seq<Operation>, enough: nat)
    requires FullBelow(lm, enough)
    ensures
      var t := Turn(lm, true, w, ops);
      && t.again == (w.mapSize < enough)
      && t.world.mapSize == w.mapSize + (if t.again then lm.growth else 0)
      && (t.again ==> t.world.store == w.store)
      && (!t.again ==> t.error == if Apply(w.store, ops).Some? then SUCCESS else LMDB_NOTFOUND)
  {
    hide Attempt;
    hide Apply;
    TurnsAgainIff(lm, true, w, ops);
    BenignAttempt(lm, w, ops);
    AttemptFullIff(lm.answer, w, ops);
    if w.mapSize < enough {
      FullAtOnce(lm, w, ops);
    }
  }

  lemma FullAtOnce(lm: Behaviour, w: World, ops: seq<Operation>)
    requires lm.answer(w.calls, w.mapSize) in {LMDB_MAP_FULL, LMDB_TXN_FULL}
    ensures FullAt(lm.answer, w, ops, 0)
  {
    assert ops[..0] == [];
  }

  /**
   Any other error ends the operation: the first answer that is neither success nor "full" is returned at
   once, from the first attempt, with the store and the map as they were, whoever else is writing.
   */
  lemma OtherErrorReturned(lm: Behaviour, alone: bool, w: World, ops: seq<Operation>, patience: nat, i: nat)
    requires patience > 0 && i <= |ops| && Apply(w.store, ops[..i]).Some?
    requires forall n :: w.calls <= n < w.calls + i ==> lm.answer(n, w.mapSize) == SUCCESS
    requires lm.answer(w.calls + i, w.mapSize) !in {SUCCESS, LMDB_MAP_FULL, LMDB_TXN_FULL}
    ensures Loop(lm, alone, w, ops, patience) ==
      Watched(Returned(lm.answer(w.calls + i, w.mapSize)), 0, World(w.store, w.mapSize, w.calls + i + 1))
  {
    hide Perform;
    hide Apply;
    PerformSucceedsIff(lm.answer, w.mapSize, w.store, w.calls, ops);
    if Perform(lm.answer, w.mapSize, w.store, w.calls, ops).error != SUCCESS {
      var k := PerformFailsAt(lm.answer, w.mapSize, w.store, w.calls, ops);
      if k < i {
        assert ops[..i][..k + 1] == ops[..k + 1];
        ApplyPrefix(w.store, ops[..i], k + 1);
      }
    }
  }

  /** A transaction that is always too large: no number of rounds ends it, and every round grows the map. */
  lemma TransactionFullForEver(lm: Behaviour, w: World, ops: seq<Operation>, patience: nat)
    requires forall n, m :: lm.answer(n, m) == LMDB_TXN_FULL && lm.resize(n, m) == SUCCESS
    ensures Loop(lm, true, w, ops, patience).progress == Retrying
    ensures Loop(lm, true, w, ops, patience).world.mapSize == w.mapSize + patience * lm.growth
    ensures Loop(lm, true, w, ops, patience).world.store == w.store
  {
    hide Turn;
    AlwaysFull(lm, w, ops, patience);
    LoopLeaves(lm, true, w, ops, patience);
  }
}
