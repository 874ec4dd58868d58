/**
 Lookups that walk the tables: the next block by timestamp, random ring members, spent key images, and
 the validation of uncommitted transactions that reads the ring members back.
 */
module Lookups {
  import opened Bytes
  import opened Collections
  import opened Crypto
  import opened Errors
  import opened Ordering
  import opened Lmdb
  import opened Tables
  import opened ReadBack
  import opened History
  import opened Acceptance
  import opened AcceptanceRules
  import opened Validation
  import Runs
  import Tx = Transactions
  import B = Blocks

  // ---------------------------------------------------------------- what the tables contain

  /** Outputs sit under 32-byte keys and parse; timestamps are 8-byte keys of a block hash. */
  ghost predicate Shaped(e: Entry, value: Data) {
    && (e.table == TRANSACTION_OUTPUTS ==> |e.key| == 32 && ParseStoredOutput(value).Ok?)
    && (e.table == BLOCK_TIMESTAMPS ==> |value| == 32 && exists v: uint64 :: e.key == Index(v))
  }

  ghost predicate AllShaped(s: Store) {
    forall e :: e in s ==> Shaped(e, s[e])
  }

  lemma {:induction false} PutAllShaped(s: Store, ws: seq<Write>)
    requires AllShaped(s)
    requires forall i :: 0 <= i < |ws| ==> Shaped(ws[i].entry, ws[i].value)
    ensures AllShaped(PutAll(s, ws))
  {
    hide Shaped;
    if ws != [] {
      PutAllShaped(s, ws[..|ws| - 1]);
    }
  }

  lemma TxWritesShaped(p: Primitives, tx: ChainTx, blockHash: Key)
    ensures forall i :: 0 <= i < |TxWrites(p, tx, blockHash)| ==>
      Shaped(TxWrites(p, tx, blockHash)[i].entry, TxWrites(p, tx, blockHash)[i].value)
  {
    hide Tx.Hash;
    hide Tx.OutputHash;
    hide StoredOutput;
    hide StoredTransaction;
    hide ParseStoredOutput;
    var os, unlockBlock := tx.NewOutputs(), tx.UnlockBlock();
    forall j | 0 <= j < |os| ensures ParseStoredOutput(StoredOutput(os[j], unlockBlock)).Ok? {
      StoredOutputReadsBack(os[j], unlockBlock);
    }
  }

  lemma {:induction false} TxsWritesShaped(p: Primitives, txs: seq<ChainTx>, blockHash: Key)
    ensures forall i :: 0 <= i < |TxsWrites(p, txs, blockHash)| ==>
      Shaped(TxsWrites(p, txs, blockHash)[i].entry, TxsWrites(p, txs, blockHash)[i].value)
  {
    hide TxWrites;
    hide Shaped;
    if txs != [] {
      TxsWritesShaped(p, txs[..|txs| - 1], blockHash);
      TxWritesShaped(p, txs[|txs| - 1], blockHash);
    }
  }

  lemma ItemWritesShaped(p: Primitives, item: Item)
    ensures forall i :: 0 <= i < |ItemWrites(p, item)| ==>
      Shaped(ItemWrites(p, item)[i].entry, ItemWrites(p, item)[i].value)
  {
    hide TxWrites;
    hide TxsWrites;
    hide B.Hash;
    hide B.FullBytes;
    hide ParseStoredOutput;
    TxWritesShaped(p, item.block.reward, B.Hash(p, item.block));
    if item.Stored? {
      TxsWritesShaped(p, item.txs, B.Hash(p, item.block));
    }
  }

  /** Every store that puts and deletions can build has this shape. */
  lemma {:induction false} ReplayShaped(p: Primitives, h: seq<Item>)
    ensures AllShaped(Replay(p, h))
  {
    hide ItemWrites;
    hide Shaped;
    hide PutAll;
    if h != [] {
      ReplayShaped(p, h[..|h| - 1]);
      ItemWritesShaped(p, h[|h| - 1]);
      PutAllShaped(Replay(p, h[..|h| - 1]), ItemWrites(p, h[|h| - 1]));
    }
  }

  lemma ReachableShaped(p: Primitives, events: seq<Runs.Event>)
    requires Runs.AdmissibleRun(p, [], events)
    ensures AllShaped(Runs.StoreAfterRun(p, map[], events))
  {
    hide *;
    Runs.EveryReachableState(p, events);
    ReplayShaped(p, Runs.HistoryAfterRun([], events));
  }

  // ---------------------------------------------------------------- the next block by timestamp

  /** `v` is the least stored timestamp from `from` on, and `hash` is stored with it. */
  ghost predicate NextTimestamp(s: Store, from: uint64, v: uint64, hash: Key) {
    && Holds(s, Entry(BLOCK_TIMESTAMPS, Index(v)), hash)
    && from <= v
    && forall w: uint64 :: from <= w && Entry(BLOCK_TIMESTAMPS, Index(w)) in s ==> v <= w
  }

  lemma KeyOrder(v: uint64, w: uint64)
    ensures AtMost(Index(v), Index(w)) <==> v <= w
  {
    hide Index;
    IndexOrder(v, w);
  }

  method GetBlockByTimestamp(s: Store, from: uint64) returns (r: Result<(uint64, Key)>)
    requires AllShaped(s)
    ensures r.Ok? ==> NextTimestamp(s, from, r.value.0, r.value.1)
    ensures r.Err? ==> r.error == DB_BLOCK_NOT_FOUND
    ensures r.Err? <==> forall w: uint64 :: from <= w ==> Entry(BLOCK_TIMESTAMPS, Index(w)) !in s
  {
    hide Index;
    hide AtMost;
    hide ParseStoredOutput;
    var found := SetRange(s, BLOCK_TIMESTAMPS, Index(from));
    forall w: uint64 ensures AtMost(Index(from), Index(w)) <==> from <= w {
      KeyOrder(from, w);
    }
    if found.None? {
      forall w: uint64 | from <= w ensures Entry(BLOCK_TIMESTAMPS, Index(w)) !in s {
        assert AtMost(Index(from), Entry(BLOCK_TIMESTAMPS, Index(w)).key);
      }
      return Err(DB_BLOCK_NOT_FOUND);
    }
    var e := Entry(BLOCK_TIMESTAMPS, found.value);
    assert Shaped(e, s[e]);
    ghost var v: uint64 :| e.key == Index(v);
    IndexOrder(v, v);
    forall w: uint64 | from <= w && Entry(BLOCK_TIMESTAMPS, Index(w)) in s ensures v <= w {
      assert AtMost(Index(from), Entry(BLOCK_TIMESTAMPS, Index(w)).key);
      KeyOrder(v, w);
    }
    r := Ok((FromBigEndian(found.value), s[e]));
  }

  // ---------------------------------------------------------------- outputs by hash

  function ReadOutputs(s: Store, hashes: seq<Data>): Result<seq<(Tx.Output, uint64)>> {
    if hashes == [] then Ok([])
    else
      var init :- ReadOutputs(s, hashes[..|hashes| - 1]);
      var last :- ReadOutput(s, hashes[|hashes| - 1]);
      Ok(init + [last])
  }

  lemma {:induction false} ReadOutputsFails(s: Store, hashes: seq<Data>, i: nat)
    requires i <= |hashes| && ReadOutputs(s, hashes[..i]).Err?
    ensures ReadOutputs(s, hashes) == ReadOutputs(s, hashes[..i])
  {
    if i < |hashes| {
      assert hashes[..|hashes| - 1][..i] == hashes[..i];
      ReadOutputsFails(s, hashes[..|hashes| - 1], i);
    } else {
      assert hashes[..i] == hashes;
    }
  }

  method GetOutputs(s: Store, hashes: seq<Data>) returns (r: Result<seq<(Tx.Output, uint64)>>)
    ensures r == ReadOutputs(s, hashes)
  {
    hide ReadOutput;
    var results := [];
    for i := 0 to |hashes|
      invariant ReadOutputs(s, hashes[..i]) == Ok(results)
    {
      assert hashes[..i + 1][..i] == hashes[..i];
      var one := ReadOutput(s, hashes[i]);
      if one.Err? {
        ReadOutputsFails(s, hashes, i + 1);
        return Err(one.error);
      }
      results := results + [one.value];
    }
    assert hashes[..|hashes|] == hashes;
    r := Ok(results);
  }

  /** Reading a list succeeds exactly when reading each member does, and yields them in order. */
  lemma {:induction false} ReadOutputsEach(s: Store, hashes: seq<Data>)
    ensures ReadOutputs(s, hashes).Ok? <==> forall i :: 0 <= i < |hashes| ==> ReadOutput(s, hashes[i]).Ok?
    ensures ReadOutputs(s, hashes).Ok? ==>
      && |ReadOutputs(s, hashes).value| == |hashes|
      && forall i :: 0 <= i < |hashes| ==> ReadOutput(s, hashes[i]) == Ok(ReadOutputs(s, hashes).value[i])
  {
    hide ReadOutput;
    if hashes != [] {
      ReadOutputsEach(s, hashes[..|hashes| - 1]);
      assert forall i :: 0 <= i < |hashes| - 1 ==> hashes[..|hashes| - 1][i] == hashes[i];
    }
  }

  // ---------------------------------------------------------------- random ring members

  /**
   A stored output that the selection may return for this block: it hashes to its key and passes the
   lock test, which turns away outputs whose unlock block lies before the given one.
   */
  ghost predicate Eligible(p: Primitives, s: Store, blockIndex: uint64, k: Data) {
    && ReadOutput(s, k).Ok?
    && Tx.OutputHash(p, ReadOutput(s, k).value.0) == k
    && blockIndex <= ReadOutput(s, k).value.1
  }

  /** What the draws so far have found. */
  ghost predicate Drawn(p: Primitives, s: Store, blockIndex: uint64, draws: seq<Key>, k: Data) {
    Eligible(p, s, blockIndex, k) && exists i :: 0 <= i < |draws| && FirstFrom(s, TRANSACTION_OUTPUTS, draws[i], k)
  }

  ghost function DrawnKeys(p: Primitives, s: Store, blockIndex: uint64, draws: seq<Key>): set<Data> {
    set k | k in TableKeys(s, TRANSACTION_OUTPUTS) && Drawn(p, s, blockIndex, draws, k)
  }

  ghost function EligibleKeys(p: Primitives, s: Store, blockIndex: uint64): set<Data> {
    set k | k in TableKeys(s, TRANSACTION_OUTPUTS) && Eligible(p, s, blockIndex, k)
  }

  datatype Selection =
    | Selected(outputs: seq<Tx.Output>)
    | Refused(error: Failure)
    | StillDrawing

  function HashKey(p: Primitives): Tx.Output -> Data {
    o => Tx.OutputHash(p, o)
  }

  ghost function HashSet(p: Primitives, os: seq<Tx.Output>): set<Data> {
    set o | o in os :: HashKey(p)(o)
  }

  lemma HashSetSnoc(p: Primitives, os: seq<Tx.Output>, o: Tx.Output)
    ensures HashSet(p, os + [o]) == HashSet(p, os) + {Tx.OutputHash(p, o)}
  {
    hide Tx.OutputHash;
    var all := os + [o];
    assert o in all;
    assert forall x :: x in all <==> x in os || x == o;
    assert HashKey(p)(o) in HashSet(p, all);
    forall x | x in os ensures HashKey(p)(x) in HashSet(p, all) {
      assert x in all;
    }
  }

  /** The output is stored under its hash and eligible. */
  ghost predicate Member(p: Primitives, s: Store, blockIndex: uint64, o: Tx.Output) {
    Eligible(p, s, blockIndex, Tx.OutputHash(p, o)) && ReadOutput(s, Tx.OutputHash(p, o)).value.0 == o
  }

  /** A result list: eligible outputs, no hash twice. */
  ghost predicate Members(p: Primitives, s: Store, blockIndex: uint64, os: seq<Tx.Output>) {
    && (forall i :: 0 <= i < |os| ==> Member(p, s, blockIndex, os[i]))
    && forall i, j :: 0 <= i < j < |os| ==> Tx.OutputHash(p, os[i]) != Tx.OutputHash(p, os[j])
  }

  lemma {:induction false} MembersCounted(p: Primitives, os: seq<Tx.Output>)
    requires forall i, j :: 0 <= i < j < |os| ==> Tx.OutputHash(p, os[i]) != Tx.OutputHash(p, os[j])
    ensures |HashSet(p, os)| == |os|
  {
    hide Tx.OutputHash;
    if os != [] {
      var front, last := os[..|os| - 1], os[|os| - 1];
      MembersCounted(p, front);
      assert os == front + [last];
      HashSetSnoc(p, front, last);
      assert Tx.OutputHash(p, last) !in HashSet(p, front);
    }
  }

  /** Sorting keeps the members and puts their hashes in strictly increasing order. */
  lemma SortedMembers(p: Primitives, s: Store, blockIndex: uint64, os: seq<Tx.Output>)
    requires Members(p, s, blockIndex, os)
    ensures
      var r := InsertAll(HashKey(p), [], os);
      Members(p, s, blockIndex, r) && |r| == |os| && Sorted(HashKey(p), r) && HashSet(p, r) == HashSet(p, os)
  {
    hide Tx.OutputHash;
    hide Member;
    var key := HashKey(p);
    var r := InsertAll(key, [], os);
    InsertAllSorted(key, [], os);
    assert Functional(key, os);
    InsertAllMembers(key, [], os);
    DedupeLength(key, [], os);
    forall i | 0 <= i < |r| ensures Member(p, s, blockIndex, r[i]) {
      assert r[i] in os;
      var j :| 0 <= j < |os| && os[j] == r[i];
    }
    forall i, j | 0 <= i < j < |r| ensures key(r[i]) != key(r[j]) {
      LessIrreflexive(key(r[i]));
    }
  }

  /**
   `get_random_outputs` on a list of draws. A draw below which nothing is stored, and one that hits an
   output that may not be used or is already there, is skipped.
   */
  method GetRandomOutputs(p: Primitives, s: Store, blockIndex: uint64, count: nat, draws: seq<Key>)
    returns (r: Selection)
    requires AllShaped(s)
    ensures r.Refused? <==> |TableKeys(s, TRANSACTION_OUTPUTS)| < count
    ensures r.Refused? ==> r.error == DB_TRANSACTION_OUTPUT_NOT_FOUND
    ensures r.Selected? ==>
      && |r.outputs| == count && Sorted(HashKey(p), r.outputs) && Members(p, s, blockIndex, r.outputs)
      && exists m :: 0 <= m <= |draws| && HashSet(p, r.outputs) == DrawnKeys(p, s, blockIndex, draws[..m])
    ensures r.StillDrawing? ==> |DrawnKeys(p, s, blockIndex, draws)| < count
    ensures |DrawnKeys(p, s, blockIndex, draws)| < count ==> !r.Selected?
  {
    hide *;
    var stored := Count(s, TRANSACTION_OUTPUTS);
    if stored < count {
      DrawnAreStored(p, s, blockIndex, draws);
      return Refused(DB_TRANSACTION_OUTPUT_NOT_FOUND);
    }
    var results: seq<Tx.Output> := [];
    var i := 0;
    NothingDrawn(p, s, blockIndex);
    while |results| < count && i < |draws|
      invariant i <= |draws| && |results| <= count
      invariant Members(p, s, blockIndex, results)
      invariant HashSet(p, results) == DrawnKeys(p, s, blockIndex, draws[..i])
      decreases |draws| - i
    {
      results := DrawOne(p, s, blockIndex, draws, i, results);
      i := i + 1;
    }
    AllDrawsCounted(p, s, blockIndex, draws, i, results);
    if |results| < count {
      assert draws[..i] == draws;
      return StillDrawing;
    }
    SortedMembers(p, s, blockIndex, results);
    r := Selected(InsertAll(HashKey(p), [], results));
  }

  lemma AllDrawsCounted(p: Primitives, s: Store, blockIndex: uint64, draws: seq<Key>, i: nat, os: seq<Tx.Output>)
    requires i <= |draws|
    requires Members(p, s, blockIndex, os) && HashSet(p, os) == DrawnKeys(p, s, blockIndex, draws[..i])
    ensures |os| <= |DrawnKeys(p, s, blockIndex, draws)|
    ensures |DrawnKeys(p, s, blockIndex, draws[..i])| == |os|
  {
    hide Eligible;
    hide FirstFrom;
    hide TableKeys;
    hide Tx.OutputHash;
    MembersCounted(p, os);
    var a, b := DrawnKeys(p, s, blockIndex, draws[..i]), DrawnKeys(p, s, blockIndex, draws);
    forall k | k in a ensures k in b {
      var j :| 0 <= j < i && FirstFrom(s, TRANSACTION_OUTPUTS, draws[..i][j], k);
      assert draws[..i][j] == draws[j];
    }
    SubsetSize(a, b);
  }

  lemma DrawnAreStored(p: Primitives, s: Store, blockIndex: uint64, draws: seq<Key>)
    ensures |DrawnKeys(p, s, blockIndex, draws)| <= |TableKeys(s, TRANSACTION_OUTPUTS)|
  {
    hide Drawn;
    SubsetSize(DrawnKeys(p, s, blockIndex, draws), TableKeys(s, TRANSACTION_OUTPUTS));
  }

  lemma NothingDrawn(p: Primitives, s: Store, blockIndex: uint64)
    ensures Members(p, s, blockIndex, []) && HashSet(p, []) == DrawnKeys(p, s, blockIndex, [])
  {
  }

  /** One turn of the selection loop. */
  method DrawOne(p: Primitives, s: Store, blockIndex: uint64, draws: seq<Key>, i: nat, results: seq<Tx.Output>)
    returns (r: seq<Tx.Output>)
    requires AllShaped(s) && i < |draws|
    requires Members(p, s, blockIndex, results)
    requires HashSet(p, results) == DrawnKeys(p, s, blockIndex, draws[..i])
    ensures Members(p, s, blockIndex, r) && |r| <= |results| + 1
    ensures HashSet(p, r) == DrawnKeys(p, s, blockIndex, draws[..i + 1])
  {
    hide FirstFrom;
    hide NoneFrom;
    hide DrawnKeys;
    hide Tx.OutputHash;
    hide ParseStoredOutput;
    var found := SetRange(s, TRANSACTION_OUTPUTS, draws[i]);
    if found.None? {
      DrawsNothing(p, s, blockIndex, draws, i);
      return results;
    }
    var k := found.value;
    KeyStored(s, draws[i], k);
    var e := Entry(TRANSACTION_OUTPUTS, k);
    assert Shaped(e, s[e]);
    var (o, unlockBlock) := ParseStoredOutput(s[e]).value;
    DrawsKey(p, s, blockIndex, draws, i, k);
    if Tx.OutputHash(p, o) != k || unlockBlock < blockIndex {
      return results;
    }
    if exists j | 0 <= j < |results| :: Tx.OutputHash(p, results[j]) == Tx.OutputHash(p, o) {
      var j :| 0 <= j < |results| && Tx.OutputHash(p, results[j]) == k;
      assert HashKey(p)(results[j]) in HashSet(p, results);
      assert HashSet(p, results) + {k} == HashSet(p, results);
      return results;
    }
    r := results + [o];
    HashSetSnoc(p, results, o);
  }

  lemma KeyStored(s: Store, from: Data, k: Data)
    requires FirstFrom(s, TRANSACTION_OUTPUTS, from, k)
    ensures Entry(TRANSACTION_OUTPUTS, k) in s
  {
  }

  lemma DrawsNothing(p: Primitives, s: Store, blockIndex: uint64, draws: seq<Key>, i: nat)
    requires i < |draws| && NoneFrom(s, TRANSACTION_OUTPUTS, draws[i])
    ensures DrawnKeys(p, s, blockIndex, draws[..i + 1]) == DrawnKeys(p, s, blockIndex, draws[..i])
  {
    hide Eligible;
    forall k ensures Drawn(p, s, blockIndex, draws[..i + 1], k) <==> Drawn(p, s, blockIndex, draws[..i], k) {
      assert !FirstFrom(s, TRANSACTION_OUTPUTS, draws[i], k);
      assert forall j :: 0 <= j < i ==> draws[..i + 1][j] == draws[..i][j];
    }
  }

  lemma DrawsKey(p: Primitives, s: Store, blockIndex: uint64, draws: seq<Key>, i: nat, k: Data)
    requires i < |draws| && FirstFrom(s, TRANSACTION_OUTPUTS, draws[i], k)
    ensures DrawnKeys(p, s, blockIndex, draws[..i + 1]) ==
      DrawnKeys(p, s, blockIndex, draws[..i]) + if Eligible(p, s, blockIndex, k) then {k} else {}
  {
    hide Eligible;
    hide FirstFrom;
    KeyStored(s, draws[i], k);
    assert Entry(TRANSACTION_OUTPUTS, k).key in TableKeys(s, TRANSACTION_OUTPUTS);
    assert draws[..i + 1][i] == draws[i];
    assert forall j :: 0 <= j < i ==> draws[..i + 1][j] == draws[..i][j];
    forall l ensures Drawn(p, s, blockIndex, draws[..i + 1], l) <==>
      Drawn(p, s, blockIndex, draws[..i], l) || (l == k && Eligible(p, s, blockIndex, k))
    {
      if FirstFrom(s, TRANSACTION_OUTPUTS, draws[i], l) {
        FirstFromUnique(s, TRANSACTION_OUTPUTS, draws[i], k, l);
      }
    }
  }

  /**
   Some draws complete the selection if and only if enough eligible outputs are stored. With enough
   outputs of which too few are eligible the request is not refused, and no draws ever complete it.
   */
  lemma SelectionPossibleIff(p: Primitives, s: Store, blockIndex: uint64, count: nat)
    requires AllShaped(s)
    ensures (exists draws :: |DrawnKeys(p, s, blockIndex, draws)| >= count) <==>
      |EligibleKeys(p, s, blockIndex)| >= count
  {
    hide Eligible;
    hide TableKeys;
    hide DrawnKeys;
    hide EligibleKeys;
    if draws :| |DrawnKeys(p, s, blockIndex, draws)| >= count {
      DrawnAreEligible(p, s, blockIndex, draws);
    }
    if |EligibleKeys(p, s, blockIndex)| >= count {
      EligibleHaveKeys(p, s, blockIndex);
      var draws := DrawThemAll(s, EligibleKeys(p, s, blockIndex));
      EachDrawsItself(p, s, blockIndex, draws);
      SubsetSize(EligibleKeys(p, s, blockIndex), DrawnKeys(p, s, blockIndex, draws));
    }
  }

  lemma DrawnAreEligible(p: Primitives, s: Store, blockIndex: uint64, draws: seq<Key>)
    ensures |DrawnKeys(p, s, blockIndex, draws)| <= |EligibleKeys(p, s, blockIndex)|
  {
    hide Eligible;
    hide TableKeys;
    SubsetSize(DrawnKeys(p, s, blockIndex, draws), EligibleKeys(p, s, blockIndex));
  }

  lemma EligibleHaveKeys(p: Primitives, s: Store, blockIndex: uint64)
    requires AllShaped(s)
    ensures forall k :: k in EligibleKeys(p, s, blockIndex) ==> |k| == 32
  {
    hide ParseStoredOutput;
    forall k | k in EligibleKeys(p, s, blockIndex) ensures |k| == 32 {
      assert Shaped(Entry(TRANSACTION_OUTPUTS, k), s[Entry(TRANSACTION_OUTPUTS, k)]);
    }
  }

  lemma {:induction false} DrawThemAll(s: Store, ks: set<Data>) returns (draws: seq<Key>)
    requires forall k :: k in ks ==> |k| == 32
    ensures forall k :: k in ks <==> k in draws
  {
    if ks == {} {
      draws := [];
    } else {
      var k: Key :| k in ks;
      var rest := DrawThemAll(s, ks - {k});
      draws := [k] + rest;
    }
  }

  lemma EachDrawsItself(p: Primitives, s: Store, blockIndex: uint64, draws: seq<Key>)
    requires forall k :: k in EligibleKeys(p, s, blockIndex) ==> k in draws
    ensures EligibleKeys(p, s, blockIndex) <= DrawnKeys(p, s, blockIndex, draws)
  {
    hide Eligible;
    forall k | k in EligibleKeys(p, s, blockIndex) ensures k in DrawnKeys(p, s, blockIndex, draws) {
      var i :| 0 <= i < |draws| && draws[i] == k;
      assert FirstFrom(s, TRANSACTION_OUTPUTS, k, k);
      assert FirstFrom(s, TRANSACTION_OUTPUTS, draws[i], k);
    }
  }

  // ---------------------------------------------------------------- validation of uncommitted transactions

  method KeyImageExists(s: Store, keyImages: seq<Key>) returns (spent: bool)
    ensures spent == AnySpent(s, keyImages)
  {
    spent := false;
    for i := 0 to |keyImages|
      invariant spent <==> exists j :: 0 <= j < i && Entry(KEY_IMAGES, keyImages[j]) in s
    {
      if Entry(KEY_IMAGES, keyImages[i]) in s {
        spent := true;
      }
    }
  }

  /** Some ring member is locked for this block. */
  predicate AnyLocked(blockIndex: uint64, inputs: seq<(Tx.Output, uint64)>) {
    exists i | 0 <= i < |inputs| :: inputs[i].1 < blockIndex
  }

  function PublicEphemerals(inputs: seq<(Tx.Output, uint64)>): (ks: seq<Key>)
    ensures |ks| == |inputs| && forall i :: 0 <= i < |ks| ==> ks[i] == inputs[i].0.publicEphemeral
  {
    seq(|inputs|, i requires 0 <= i < |inputs| => inputs[i].0.publicEphemeral)
  }

  function InputCommitments(inputs: seq<(Tx.Output, uint64)>): (ks: seq<Key>)
    ensures |ks| == |inputs| && forall i :: 0 <= i < |ks| ==> ks[i] == inputs[i].0.commitment
  {
    seq(|inputs|, i requires 0 <= i < |inputs| => inputs[i].0.commitment)
  }

  ghost predicate SignaturesVerify(p: Primitives, u: Uncommitted, inputs: seq<(Tx.Output, uint64)>)
    requires |u.signatures| == |u.body.keyImages|
  {
    forall i :: 0 <= i < |u.signatures| ==>
      p.ringSignatureVerifies(p.sha3(DigestBytes(u)), u.body.keyImages[i], PublicEphemerals(inputs),
                              u.signatures[i], InputCommitments(inputs))
  }

  lemma ConstructedSizes(p: Primitives, u: Uncommitted)
    requires CheckUncommitted(p, u) == SUCCESS
    ensures |u.signatures| == |u.body.keyImages|
  {
    hide ConstructionOfUser;
    hide CheckWorkAndFee;
  }

  /** The ring members are stored and none is locked. */
  ghost predicate RingUsable(s: Store, blockIndex: uint64, ring: seq<Key>) {
    ReadOutputs(s, ring).Ok? && !AnyLocked(blockIndex, ReadOutputs(s, ring).value)
  }

  /** What it takes for an uncommitted transaction to be valid. */
  ghost predicate Valid(p: Primitives, s: Store, blockIndex: uint64, u: Uncommitted) {
    && CheckUncommitted(p, u) == SUCCESS
    && |u.signatures| == |u.body.keyImages|
    && p.rangeProofVerifies(u.rangeProof, Commitments(u.body.outputs))
    && !AnySpent(s, u.body.keyImages)
    && RingUsable(s, blockIndex, u.ringParticipants)
    && SignaturesVerify(p, u, ReadOutputs(s, u.ringParticipants).value)
  }

  /** The ring members as the store holds them, none of them locked for the block. */
  ghost predicate RingRead(s: Store, blockIndex: uint64, ring: seq<Key>, inputs: seq<(Tx.Output, uint64)>) {
    && |inputs| == |ring|
    && forall i :: 0 <= i < |ring| ==> ReadOutput(s, ring[i]) == Ok(inputs[i]) && blockIndex <= inputs[i].1
  }

  /** The ephemeral keys and the commitments of all ring members, in order. */
  ghost predicate RingKeys(inputs: seq<(Tx.Output, uint64)>, keys: seq<Key>, commitments: seq<Key>) {
    && |keys| == |commitments| == |inputs|
    && forall j :: 0 <= j < |inputs| ==>
      keys[j] == inputs[j].0.publicEphemeral && commitments[j] == inputs[j].0.commitment
  }

  /** One signature for each key image, over the digest of the signed bytes. */
  ghost predicate SignedOver(p: Primitives, u: Uncommitted, keys: seq<Key>, commitments: seq<Key>) {
    var digest := p.sha3(Tx.EncodeDigest(u.prefix, u.body, Tx.NormalData(u.extra)));
    && |u.signatures| == |u.body.keyImages|
    && forall i :: 0 <= i < |u.signatures| ==>
      p.ringSignatureVerifies(digest, u.body.keyImages[i], keys, u.signatures[i], commitments)
  }

  /** Validity in the fields of the transaction and the entries of the store. */
  ghost predicate Spendable(p: Primitives, s: Store, blockIndex: uint64, u: Uncommitted) {
    && Acceptable(p, u)
    && p.rangeProofVerifies(u.rangeProof, Commitments(u.body.outputs))
    && (forall i :: 0 <= i < |u.body.keyImages| ==> Entry(KEY_IMAGES, u.body.keyImages[i]) !in s)
    && exists inputs, keys, commitments ::
      && RingRead(s, blockIndex, u.ringParticipants, inputs)
      && RingKeys(inputs, keys, commitments)
      && SignedOver(p, u, keys, commitments)
  }

  lemma ValidIff(p: Primitives, s: Store, blockIndex: uint64, u: Uncommitted)
    ensures Valid(p, s, blockIndex, u) <==> Spendable(p, s, blockIndex, u)
  {
    hide CheckUncommitted;
    hide Acceptable;
    hide ReadOutput;
    hide ReadOutputs;
    hide Commitments;
    hide SignaturesVerify;
    hide SignedOver;
    hide RingKeys;
    AcceptedIff(p, u);
    RingReadIff(s, blockIndex, u.ringParticipants);
    if CheckUncommitted(p, u) == SUCCESS {
      ConstructedSizes(p, u);
      if ReadOutputs(s, u.ringParticipants).Ok? {
        SignedIff(p, u, ReadOutputs(s, u.ringParticipants).value);
      }
    }
  }

  /** A ring can be read in one way at most. */
  lemma RingReadIff(s: Store, blockIndex: uint64, ring: seq<Key>)
    ensures forall inputs :: RingRead(s, blockIndex, ring, inputs) <==>
      ReadOutputs(s, ring) == Ok(inputs) && !AnyLocked(blockIndex, inputs)
  {
    hide ReadOutput;
    hide ReadOutputs;
    ReadOutputsEach(s, ring);
    forall inputs | RingRead(s, blockIndex, ring, inputs) ensures ReadOutputs(s, ring) == Ok(inputs) {
      assert ReadOutputs(s, ring).value == inputs;
    }
  }

  lemma SignedIff(p: Primitives, u: Uncommitted, inputs: seq<(Tx.Output, uint64)>)
    requires |u.signatures| == |u.body.keyImages|
    ensures forall keys, commitments :: RingKeys(inputs, keys, commitments) <==>
      keys == PublicEphemerals(inputs) && commitments == InputCommitments(inputs)
    ensures SignaturesVerify(p, u, inputs) <==> SignedOver(p, u, PublicEphemerals(inputs), InputCommitments(inputs))
  {
    hide Tx.EncodeDigest;
    forall keys, commitments | RingKeys(inputs, keys, commitments)
      ensures keys == PublicEphemerals(inputs) && commitments == InputCommitments(inputs)
    {
      assert keys == PublicEphemerals(inputs) && commitments == InputCommitments(inputs);
    }
  }

  /** A committed user transaction validates if and only if it is acceptable and spends nothing twice. */
  lemma UserValidIff(p: Primitives, s: Store, tx: ChainTx)
    requires tx.User?
    ensures ValidateUser(p, s, tx) == SUCCESS <==>
      && AcceptableUser(p, tx)
      && forall i :: 0 <= i < |tx.body.keyImages| ==> Entry(KEY_IMAGES, tx.body.keyImages[i]) !in s
  {
    hide CheckUser;
    hide AcceptableUser;
    UserAcceptedIff(p, tx);
  }

  /** What the store has to say about a transaction: double spends first, then its ring members. */
  function StorageVerdict(s: Store, blockIndex: uint64, u: Uncommitted): ErrorCode {
    if AnySpent(s, u.body.keyImages) then TX_KEY_IMAGE_ALREADY_EXISTS
    else
      match ReadOutputs(s, u.ringParticipants)
      case Err(error) => error
      case Ok(inputs) => if AnyLocked(blockIndex, inputs) then TX_OUTPUT_LOCKED else SUCCESS
  }

  /** Which error the store gives rise to: a spent key image, the first ring member not read, a locked one. */
  lemma StorageVerdictIs(s: Store, blockIndex: uint64, u: Uncommitted)
    ensures
      var e, images, ring := StorageVerdict(s, blockIndex, u), u.body.keyImages, u.ringParticipants;
      && ((exists i :: 0 <= i < |images| && Entry(KEY_IMAGES, images[i]) in s) ==> e == TX_KEY_IMAGE_ALREADY_EXISTS)
      && ((forall i :: 0 <= i < |images| ==> Entry(KEY_IMAGES, images[i]) !in s) ==>
            && (forall i: nat :: i < |ring| && FirstUnread(s, ring, i) ==> e == ReadOutput(s, ring[i]).error)
            && ((forall i :: 0 <= i < |ring| ==> ReadOutput(s, ring[i]).Ok?) ==>
                  e == if exists i :: 0 <= i < |ring| && ReadOutput(s, ring[i]).value.1 < blockIndex
                       then TX_OUTPUT_LOCKED else SUCCESS))
  {
    hide ReadOutput;
    hide ReadOutputs;
    var ring := u.ringParticipants;
    ReadOutputsEach(s, ring);
    forall i: nat | i < |ring| && FirstUnread(s, ring, i)
      ensures ReadOutputs(s, ring) == Err(ReadOutput(s, ring[i]).error)
    {
      FirstUnreadDecides(s, ring, i);
    }
    if ReadOutputs(s, ring).Ok? {
      var inputs := ReadOutputs(s, ring).value;
      assert forall i :: 0 <= i < |ring| ==> inputs[i] == ReadOutput(s, ring[i]).value;
    }
  }

  ghost predicate FirstUnread(s: Store, ring: seq<Key>, i: nat)
    requires i < |ring|
  {
    ReadOutput(s, ring[i]).Err? && forall j :: 0 <= j < i ==> ReadOutput(s, ring[j]).Ok?
  }

  lemma FirstUnreadDecides(s: Store, ring: seq<Key>, i: nat)
    requires i < |ring| && FirstUnread(s, ring, i)
    ensures ReadOutputs(s, ring) == Err(ReadOutput(s, ring[i]).error)
  {
    hide ReadOutput;
    ReadOutputsEach(s, ring[..i]);
    assert ring[..i + 1][..i] == ring[..i];
    ReadOutputsFails(s, ring, i + 1);
  }

  /** Gathers the keys of the ring members, up to the first locked one. */
  method GatherRing(blockIndex: uint64, inputs: seq<(Tx.Output, uint64)>)
    returns (locked: bool, publicKeys: seq<Key>, commitments: seq<Key>)
    ensures locked == AnyLocked(blockIndex, inputs)
    ensures !locked ==> publicKeys == PublicEphemerals(inputs) && commitments == InputCommitments(inputs)
  {
    publicKeys, commitments := [], [];
    for i := 0 to |inputs|
      invariant publicKeys == PublicEphemerals(inputs)[..i] && commitments == InputCommitments(inputs)[..i]
      invariant forall j :: 0 <= j < i ==> blockIndex <= inputs[j].1
    {
      publicKeys := publicKeys + [inputs[i].0.publicEphemeral];
      commitments := commitments + [inputs[i].0.commitment];
      if inputs[i].1 < blockIndex {
        return true, publicKeys, commitments;
      }
    }
    locked := false;
  }

  method VerifySignatures(p: Primitives, u: Uncommitted, inputs: seq<(Tx.Output, uint64)>,
                          publicKeys: seq<Key>, commitments: seq<Key>)
    returns (ok: bool)
    requires |u.signatures| == |u.body.keyImages|
    requires publicKeys == PublicEphemerals(inputs) && commitments == InputCommitments(inputs)
    ensures ok == SignaturesVerify(p, u, inputs)
  {
    hide DigestBytes;
    var messageDigest := p.sha3(DigestBytes(u));
    for i := 0 to |u.signatures|
      invariant forall j :: 0 <= j < i ==>
        p.ringSignatureVerifies(messageDigest, u.body.keyImages[j], publicKeys, u.signatures[j], commitments)
    {
      if !p.ringSignatureVerifies(messageDigest, u.body.keyImages[i], publicKeys, u.signatures[i], commitments) {
        return false;
      }
    }
    ok := true;
  }

  /** `validate` of an uncommitted transaction; the first failing test decides the error. */
  method ValidateUncommitted(p: Primitives, s: Store, blockIndex: uint64, u: Uncommitted) returns (e: ErrorCode)
    ensures e == SUCCESS <==> Valid(p, s, blockIndex, u)
    ensures e == SUCCESS <==> Spendable(p, s, blockIndex, u)
    ensures CheckUncommitted(p, u) != SUCCESS ==> e == CheckUncommitted(p, u)
    ensures CheckUncommitted(p, u) == SUCCESS && !p.rangeProofVerifies(u.rangeProof, Commitments(u.body.outputs)) ==>
      e == TX_INVALID_RANGE_PROOF
    ensures CheckUncommitted(p, u) == SUCCESS && p.rangeProofVerifies(u.rangeProof, Commitments(u.body.outputs)) ==>
      || e == StorageVerdict(s, blockIndex, u)
      || (StorageVerdict(s, blockIndex, u) == SUCCESS && e == TX_INVALID_RING_SIGNATURE)
  {
    hide CheckUncommitted;
    hide ReadOutputs;
    hide AnySpent;
    hide AnyLocked;
    hide SignaturesVerify;
    hide PublicEphemerals;
    hide InputCommitments;
    hide Spendable;
    ValidIff(p, s, blockIndex, u);
    e := CheckUncommitted(p, u);
    if e != SUCCESS {
      return;
    }
    ConstructedSizes(p, u);
    var commitments := [];
    for i := 0 to |u.body.outputs|
      invariant commitments == Commitments(u.body.outputs)[..i]
    {
      commitments := commitments + [u.body.outputs[i].commitment];
    }
    assert commitments == Commitments(u.body.outputs);
    if !p.rangeProofVerifies(u.rangeProof, commitments) {
      return TX_INVALID_RANGE_PROOF;
    }
    var spent := KeyImageExists(s, u.body.keyImages);
    if spent {
      return TX_KEY_IMAGE_ALREADY_EXISTS;
    }
    var found := GetOutputs(s, u.ringParticipants);
    if found.Err? {
      return found.error;
    }
    var locked, publicKeys, inputCommitments := GatherRing(blockIndex, found.value);
    if locked {
      return TX_OUTPUT_LOCKED;
    }
    var verified := VerifySignatures(p, u, found.value, publicKeys, inputCommitments);
    if !verified {
      return TX_INVALID_RING_SIGNATURE;
    }
  }

  /**
   Selection agrees with validation: the hashes of selected outputs form a ring whose members are
   found again, unlocked, with the keys and commitments of exactly those outputs.
   */
  lemma SelectedRingUsable(p: Primitives, s: Store, blockIndex: uint64, os: seq<Tx.Output>)
    requires Members(p, s, blockIndex, os)
    ensures RingUsable(s, blockIndex, OutputHashes(p, os))
    ensures |ReadOutputs(s, OutputHashes(p, os)).value| == |os|
    ensures forall i :: 0 <= i < |os| ==> ReadOutputs(s, OutputHashes(p, os)).value[i].0 == os[i]
  {
    hide ReadOutput;
    hide ReadOutputs;
    hide Tx.OutputHash;
    ReadOutputsEach(s, OutputHashes(p, os));
  }

  /**
   A valid uncommitted transaction is still valid once committed, exactly if its acceptance carries over,
   as it does for every transaction with the normal tag.
   */
  lemma ValidityCarriesOver(p: Primitives, s: Store, blockIndex: uint64, u: Uncommitted)
    requires RingSignaturesCarryScalars(p) && Valid(p, s, blockIndex, u)
    ensures ValidateUser(p, s, ToCommitted(p, u)) == SUCCESS <==> CheckUser(p, ToCommitted(p, u)) == SUCCESS
    ensures u.prefix.header.txType == Tx.NORMAL ==> ValidateUser(p, s, ToCommitted(p, u)) == SUCCESS
  {
    hide CheckUncommitted;
    hide CheckUser;
    hide RingUsable;
    hide AnySpent;
    AcceptanceCarriesOver(p, u);
  }
}
