/**
 Runs that do something: two blocks, the second with a user transaction that validates and spends a key
 image, and rewinds to the first. The hash of these runs is the length of what is hashed.
 */
module Witness {
  import opened Acceptance
  import opened Bytes
  import opened ChainRuns
  import opened Crypto
  import opened Errors
  import opened History
  import opened Ledger
  import opened Lmdb
  import opened Ordering
  import opened PaidOutputs
  import opened ReadBack
  import opened Rewinding
  import opened Runs
  import opened ShippedPut
  import opened Tables
  import Fees
  import Tx = Transactions
  import B = Blocks

  /** A key that differs from the others in its first byte. */
  function NumberedKey(n: byte): Key {
    [n] + (ZEROS_8 + ZEROS_8 + ZEROS_8 + [0, 0, 0, 0, 0, 0, 0])
  }

  lemma NumberedKeysDiffer(m: byte, n: byte)
    ensures NumberedKey(m) == NumberedKey(n) ==> m == n
    ensures m != 0 ==> NumberedKey(m) != EMPTY_KEY
  {
    assert NumberedKey(m)[0] == m && NumberedKey(n)[0] == n && EMPTY_KEY[0] == 0;
  }

  function LengthHash(d: Data): Key {
    NumberedKey(|d| % 0x100)
  }

  function LengthPrimitives(): Primitives {
    Primitives(LengthHash, (k: Key) => k, (k: Key) => 16, (k: Key) => k, (d: Key, k: Key, n: nat) => EMPTY_SIGNATURE,
               (d: Key, k: Key, g: Signature) => true, (k: Key) => true, (a: seq<Key>, b: seq<Key>, f: uint64) => true,
               (r: RangeProof) => EMPTY_KEY, (r: RangeProof) => true, (r: RangeProof, c: seq<Key>) => true,
               (g: RingSignature, n: nat) => true,
               (d: Key, k: Key, ks: seq<Key>, g: RingSignature, c: seq<Key>) => true)
  }

  function Spender(): ChainTx {
    Tx.User(Tx.Prefix(Tx.Header(Tx.NORMAL, 1), 0, NumberedKey(1)),
            Tx.Body(0, 1, [NumberedKey(1)], [SmallOutput(1), SmallOutput(200)]),
            Tx.NormalData([]), Tx.Suffix(NumberedKey(2), NumberedKey(3)))
  }

  function SmallOutput(amount: uint64): Tx.Output {
    Tx.Output(NumberedKey(1), amount, NumberedKey(1))
  }

  function PlainBlock(index: uint64, transactions: seq<Key>): B.Block {
    B.Block(1, EMPTY_KEY, index, index, Tx.Staker(Tx.Header(Tx.STAKER, 1), [], []), transactions,
            EMPTY_KEY, EMPTY_SIGNATURE, [])
  }

  function First(): B.Block {
    PlainBlock(0, [])
  }

  function Second(): B.Block {
    PlainBlock(1, [Tx.Hash(LengthPrimitives(), Spender())])
  }

  // ---------------------------------------------------------------- sizes and hashes

  lemma Sizes()
    ensures |Tx.EncodeOutput(SmallOutput(1))| == 65 && |Tx.EncodeOutput(SmallOutput(200))| == 66
    ensures |Tx.Encode(Spender())| == 267
    ensures |Tx.Encode(First().reward)| == 4
    ensures |B.FullBytes(First())| == 42
    ensures |B.FullBytes(Second())| == 74
  {
    hide Tx.Hash;
    var a, b := Tx.EncodeOutput(SmallOutput(1)), Tx.EncodeOutput(SmallOutput(200));
    assert |EncodeVarint(200)| == 2;
    assert |a| == 65 && |b| == 66;
    ListOfTwo(SmallOutput(1), SmallOutput(200));
    ListOfOne(NumberedKey(1));
    ListOfOne(Tx.Hash(LengthPrimitives(), Spender()));
    assert |Tx.EncodePrefix(Spender().prefix)| == 35;
    assert |Tx.EncodeBody(Spender().body)| == 167;
    assert |Tx.EncodeData(Spender().data)| == 1;
  }

  lemma ListOfTwo(x: Tx.Output, y: Tx.Output)
    ensures |EncodeList(Tx.EncodeOutput, [x, y])| == 1 + |Tx.EncodeOutput(x)| + |Tx.EncodeOutput(y)|
  {
    hide Tx.EncodeOutput;
    assert [x, y][1..] == [y] && [y][1..] == [];
    assert EncodeAll(Tx.EncodeOutput, [y]) == Tx.EncodeOutput(y) + [];
    assert EncodeAll(Tx.EncodeOutput, [x, y]) == Tx.EncodeOutput(x) + EncodeAll(Tx.EncodeOutput, [y]);
    assert |EncodeVarint(2)| == 1;
  }

  lemma ListOfOne(k: Key)
    ensures |EncodeList(Tx.EncodeKey, [k])| == 33
  {
    assert [k][1..] == [];
    assert EncodeAll(Tx.EncodeKey, [k]) == k + [];
    assert |EncodeVarint(1)| == 1;
  }

  /** All hashes of the run that must differ do. */
  lemma Hashes()
    ensures
      var p := LengthPrimitives();
      && Tx.OutputHash(p, SmallOutput(1)) != Tx.OutputHash(p, SmallOutput(200))
      && Tx.Hash(p, Spender()) != Tx.Hash(p, First().reward)
      && B.Hash(p, First()) != B.Hash(p, Second())
  {
    hide Tx.Encode;
    hide Tx.EncodeOutput;
    hide B.FullBytes;
    hide NumberedKey;
    Sizes();
    NumberedKeysDiffer(65, 66);
    NumberedKeysDiffer(96, 4);
    NumberedKeysDiffer(42, 74);
  }

  // ---------------------------------------------------------------- the transaction is acceptable

  lemma SpenderChecks()
    ensures CheckUser(LengthPrimitives(), Spender()) == SUCCESS
  {
    hide Tx.Encode;
    hide Tx.EncodeDigest;
    hide NumberedKey;
    var p, tx := LengthPrimitives(), Spender();
    Sizes();
    NumberedKeysDiffer(1, 1);
    Fees.FeeBounds(267, 16);
    SpenderCommon(p, tx);
  }

  lemma SpenderCommon(p: Primitives, tx: ChainTx)
    requires p == LengthPrimitives() && tx == Spender()
    ensures ConstructionOfUser(p, tx.prefix, tx.body, tx.data) == SUCCESS
  {
    hide NumberedKey;
    NumberedKeysDiffer(1, 1);
    var os := tx.body.outputs;
    assert os[1..] == [SmallOutput(200)] && os[1..][1..] == [];
    assert CheckOutputs(os[1..]) == SUCCESS;
    var ks := tx.body.keyImages;
    assert ks[1..] == [];
    assert InsertAll(Tx.EncodeKey, [], ks) == ks;
  }

  // ---------------------------------------------------------------- the run

  lemma FirstFollows()
    ensures CanFollow(LengthPrimitives(), [], First(), [])
    ensures Good(LengthPrimitives(), [Stored(First(), [])])
  {
    hide B.Hash;
    hide Tx.Hash;
    hide NumberedKey;
    hide LengthPrimitives;
    var p := LengthPrimitives();
    assert TxHashes(p, []) == [];
    assert Replay(p, []) == map[];
    assert CanFollow(p, [], First(), []);
    EmptyIsGood(p);
    PutKeepsGood(p, [], First(), []);
    assert [] + [Stored(First(), [])] == [Stored(First(), [])];
  }

  /** The first block is stored, and nothing else but rewards of the second are left. */
  ghost predicate OnlyFirst(h: seq<Item>) {
    h != [] && h[0] == Stored(First(), []) && forall i :: 1 <= i < |h| ==> h[i] == Residue(Second())
  }

  /** The first block has left no key images, no outputs and no second timestamp. */
  lemma AfterFirst(p: Primitives, h: seq<Item>, k: Data)
    requires Good(p, h) && OnlyFirst(h)
    ensures
      var s := Replay(p, h);
      Entry(KEY_IMAGES, k) !in s && Entry(TRANSACTION_OUTPUTS, k) !in s && Entry(BLOCK_TIMESTAMPS, Index(1)) !in s
  {
    hide Replay;
    hide Separated;
    hide Coherent;
    hide B.Hash;
    hide B.FullBytes;
    hide Second;
    SecondReward();
    KeyImagesAgree(p, h, k);
    OutputsAgree(p, h, k);
    FirstPaysNothing(p, h, k);
    IndexOrder(1, 0);
    if Entry(BLOCK_TIMESTAMPS, Index(1)) in Replay(p, h) {
      HeadersAgree(p, h, Index(1), Replay(p, h)[Entry(BLOCK_TIMESTAMPS, Index(1))]);
    }
  }

  lemma FirstPaysNothing(p: Primitives, h: seq<Item>, k: Data)
    requires OnlyFirst(h)
    ensures NoItemPays(p, h, k)
    ensures ReadOutput(Replay(p, h), k) == Err(DB_TRANSACTION_OUTPUT_NOT_FOUND) ==>
      Entry(TRANSACTION_OUTPUTS, k) !in Replay(p, h)
  {
    hide Replay;
  }

  lemma SecondReward()
    ensures Second().reward == First().reward && Second().reward.NewOutputs() == []
    ensures Second().index == 1 && Second().timestamp == 1
  {
  }

  lemma SpenderValid(p: Primitives, s: Store, tx: ChainTx, b: B.Block)
    requires p == LengthPrimitives() && tx == Spender() && b == Second()
    requires forall k :: Entry(KEY_IMAGES, k) !in s && Entry(TRANSACTION_OUTPUTS, k) !in s
    ensures MembersValid(p, s, b, [tx])
  {
    hide Tx.Hash;
    hide Tx.OutputHash;
    hide NumberedKey;
    hide LengthPrimitives;
    hide CheckUser;
    Hashes();
    SpenderChecks();
    assert NewOutputHashes(p, s, tx);
  }

  lemma SecondCoherent()
    ensures Coherent(LengthPrimitives(), Second(), [Spender()])
  {
    hide Tx.Hash;
    hide NumberedKey;
    hide LengthPrimitives;
    assert TxHashes(LengthPrimitives(), [Spender()]) == [Tx.Hash(LengthPrimitives(), Spender())];
  }

  lemma SecondFollows(h: seq<Item>)
    requires Good(LengthPrimitives(), h) && OnlyFirst(h)
    ensures CanFollow(LengthPrimitives(), h, Second(), [Spender()])
  {
    hide Replay;
    hide B.Hash;
    hide Tx.Hash;
    hide NumberedKey;
    hide LengthPrimitives;
    hide MembersValid;
    hide Coherent;
    hide Good;
    hide StoredCount;
    var p := LengthPrimitives();
    Hashes();
    SecondReward();
    forall k ensures Entry(KEY_IMAGES, k) !in Replay(p, h) && Entry(TRANSACTION_OUTPUTS, k) !in Replay(p, h) {
      AfterFirst(p, h, k);
    }
    AfterFirst(p, h, []);
    SpenderValid(p, Replay(p, h), Spender(), Second());
    SecondCoherent();
    OneStored(p, h);
    assert NoCollisions(p, h, Second(), [Spender()]);
  }

  lemma OneStored(p: Primitives, h: seq<Item>)
    requires Good(p, h) && OnlyFirst(h)
    ensures StoredCount(h) == 1
  {
    hide StoredCount;
    hide Separated;
    hide Second;
    NumberedIndexes(h, 0);
    assert HasIndex(h, 0);
    assert !HasIndex(h, 1);
  }

  // ---------------------------------------------------------------- what the run leaves

  function Events(): (events: seq<Event>)
    ensures |events| == 3
  {
    [PutEvent(First(), []), PutEvent(Second(), [Spender()]), RewindEvent(0)]
  }

  /** The histories after one, two and all three events. */
  lemma Histories() returns (h1: seq<Item>, h2: seq<Item>, h3: seq<Item>)
    ensures h1 == [Stored(First(), [])]
    ensures h2 == [Stored(First(), []), Stored(Second(), [Spender()])]
    ensures h3 == [Stored(First(), []), Residue(Second())]
    ensures Good(LengthPrimitives(), h1) && Good(LengthPrimitives(), h2) && Good(LengthPrimitives(), h3)
    ensures Admissible(LengthPrimitives(), [], Events()[0]) && HistoryAfter([], Events()[0]) == h1
    ensures Admissible(LengthPrimitives(), h1, Events()[1]) && HistoryAfter(h1, Events()[1]) == h2
    ensures Admissible(LengthPrimitives(), h2, Events()[2]) && HistoryAfter(h2, Events()[2]) == h3
  {
    hide *;
    h1 := [Stored(First(), [])];
    h2 := [Stored(First(), []), Stored(Second(), [Spender()])];
    h3 := [Stored(First(), []), Residue(Second())];
    FirstPut();
    SecondPut();
    ThenRewind(h2);
  }

  lemma FirstPut()
    ensures Good(LengthPrimitives(), [Stored(First(), [])])
    ensures Admissible(LengthPrimitives(), [], Events()[0]) && HistoryAfter([], Events()[0]) == [Stored(First(), [])]
  {
    hide CanFollow;
    hide LengthPrimitives;
    hide Spender;
    hide First;
    hide Second;
    hide Good;
    FirstFollows();
    assert [] + [Stored(First(), [])] == [Stored(First(), [])];
  }

  lemma SecondPut()
    ensures
      var h1, h2 := [Stored(First(), [])], [Stored(First(), []), Stored(Second(), [Spender()])];
      && Good(LengthPrimitives(), h2)
      && Admissible(LengthPrimitives(), h1, Events()[1]) && HistoryAfter(h1, Events()[1]) == h2
  {
    hide CanFollow;
    hide LengthPrimitives;
    hide Spender;
    hide First;
    hide Second;
    hide Good;
    var h1 := [Stored(First(), [])];
    FirstFollows();
    SecondFollows(h1);
    PutKeepsGood(LengthPrimitives(), h1, Second(), [Spender()]);
    assert [Stored(First(), []), Stored(Second(), [Spender()])] == h1 + [Stored(Second(), [Spender()])];
  }

  lemma ThenRewind(h: seq<Item>)
    requires Good(LengthPrimitives(), h) && h == [Stored(First(), []), Stored(Second(), [Spender()])]
    ensures Good(LengthPrimitives(), [Stored(First(), []), Residue(Second())])
    ensures Admissible(LengthPrimitives(), h, Events()[2])
    ensures HistoryAfter(h, Events()[2]) == [Stored(First(), []), Residue(Second())]
  {
    hide LengthPrimitives;
    hide Spender;
    hide First;
    hide Second;
    hide Good;
    hide Replay;
    FirstIndex();
    SecondReward();
    assert h[..1][..0] == [];
    assert StoredCount(h) == 2;
    assert h[0].block.index == 0;
    assert HasIndex(h, 0);
    StripKeepsGood(LengthPrimitives(), h, 0);
    assert Strip(h, 0, 1) == [Stored(First(), []), Residue(Second())];
  }

  lemma StoresOfRun(p: Primitives, events: seq<Event>, h1: seq<Item>, h2: seq<Item>, h3: seq<Item>)
    requires |events| == 3 && Good(p, []) && Good(p, h1) && Good(p, h2)
    requires Admissible(p, [], events[0]) && HistoryAfter([], events[0]) == h1
    requires Admissible(p, h1, events[1]) && HistoryAfter(h1, events[1]) == h2
    requires Admissible(p, h2, events[2]) && HistoryAfter(h2, events[2]) == h3
    ensures AdmissibleRun(p, [], events)
    ensures StoreAfterRun(p, map[], events[..2]) == Replay(p, h2)
    ensures StoreAfterRun(p, map[], events) == Replay(p, h3)
  {
    hide Good;
    hide Admissible;
    hide HistoryAfter;
    hide Replay;
    hide StoreAfter;
    hide TableKeys;
    EmptyReplay(p);
    OneStep(p, [], events[0]);
    OneStep(p, h1, events[1]);
    OneStep(p, h2, events[2]);
    var rest := events[1..];
    assert rest[1..][1..] == [] && rest[1..] == [events[2]];
    var two := events[..2];
    assert two[1..] == [events[1]] && two[1..][1..] == [];
    assert StoreAfterRun(p, Replay(p, h2), rest[1..]) == Replay(p, h3);
    assert StoreAfterRun(p, Replay(p, h1), rest) == Replay(p, h3);
    assert StoreAfterRun(p, Replay(p, h1), two[1..]) == Replay(p, h2);
    assert AdmissibleRun(p, h2, rest[1..]);
    assert AdmissibleRun(p, h1, rest);
  }

  lemma EmptyReplay(p: Primitives)
    ensures Replay(p, []) == map[]
  {
  }

  /**
   The run is admissible. After the second put the key image is spent and the second block reads back;
   after the rewind it is free again and the block is gone.
   */
  lemma SpendingRun()
    ensures AdmissibleRun(LengthPrimitives(), [], Events())
    ensures
      var p, image := LengthPrimitives(), Entry(KEY_IMAGES, NumberedKey(1));
      var spent, undone := StoreAfterRun(p, map[], Events()[..2]), StoreAfterRun(p, map[], Events());
      && image in spent && ReadBlockAt(spent, 1) == Ok((Second(), [Spender()]))
      && image !in undone && ReadBlock(undone, B.Hash(p, Second())).Err?
  {
    hide *;
    var p := LengthPrimitives();
    var h1, h2, h3 := Histories();
    EmptyIsGood(p);
    StoresOfRun(p, Events(), h1, h2, h3);
    SpentAfterTwo(p, h2);
    FreeAfterRewind(p, h3);
  }

  lemma SpentAfterTwo(p: Primitives, h: seq<Item>)
    requires Good(p, h) && h == [Stored(First(), []), Stored(Second(), [Spender()])]
    ensures Entry(KEY_IMAGES, NumberedKey(1)) in Replay(p, h)
    ensures ReadBlockAt(Replay(p, h), 1) == Ok((Second(), [Spender()]))
  {
    hide Replay;
    hide Separated;
    hide Coherent;
    hide ReadBlockAt;
    hide Second;
    SecondReward();
    ReadsAtHistory(p, h);
    assert h[1].txs == [Spender()] && h[1].block == Second();
    assert Spender().KeyImages()[0] == NumberedKey(1);
    assert h[1].txs[0].KeyImages() == Spender().KeyImages();
    KeyImagesAgree(p, h, NumberedKey(1));
  }

  lemma FreeAfterRewind(p: Primitives, h: seq<Item>)
    requires p == LengthPrimitives() && Good(p, h) && h == [Stored(First(), []), Residue(Second())]
    ensures Entry(KEY_IMAGES, NumberedKey(1)) !in Replay(p, h)
    ensures ReadBlock(Replay(p, h), B.Hash(p, Second())).Err?
  {
    hide Replay;
    hide Separated;
    hide Coherent;
    hide ReadBlock;
    hide Second;
    hide B.Hash;
    hide LengthPrimitives;
    AfterFirst(p, h, NumberedKey(1));
    Hashes();
    ReadsAreHistory(p, h, B.Hash(p, Second()));
  }

  /** The second block as shipped: it is put, and never comes back, whatever the tables held. */
  lemma SecondLost(s: Store)
    ensures CheckPut(LengthPrimitives(), Second(), [Spender()]) == SUCCESS
    ensures
      var p := LengthPrimitives();
      ReadBlock(AfterShippedPut(p, s, Second(), [Spender()]), B.Hash(p, Second())) != Ok((Second(), [Spender()]))
  {
    hide AfterShippedPut;
    hide ReadBlock;
    hide B.Hash;
    hide Tx.Hash;
    hide LengthPrimitives;
    hide NumberedKey;
    NumberedKeysDiffer(2, 3);
    SecondCoherent();
    UserTransactionLost(LengthPrimitives(), s, Second(), [Spender()], 0);
  }

  // ---------------------------------------------------------------- a policy that may always be followed

  /** Put what is missing; with both blocks there, rewind to the first. */
  function Restless(n: nat, s: Store): Event {
    if Entry(BLOCK_INDEXES, Index(0)) !in s then PutEvent(First(), [])
    else if Entry(BLOCK_INDEXES, Index(1)) !in s then PutEvent(Second(), [Spender()])
    else RewindEvent(0)
  }

  /** The histories it runs through: the first block, then second ones, stored or removed. */
  ghost predicate Reached(p: Primitives, h: seq<Item>) {
    && Good(p, h)
    && (h != [] ==> h[0] == Stored(First(), []))
    && forall i :: 1 <= i < |h| ==> h[i] == Residue(Second()) || h[i] == Stored(Second(), [Spender()])
  }

  /** What the policy calls next is allowed, and leads to such a history again. */
  lemma RestlessStep(p: Primitives, h: seq<Item>, n: nat)
    requires p == LengthPrimitives() && Reached(p, h)
    ensures Allowed(p, h, Restless(n, Replay(p, h)))
    ensures forall h' :: MayBecome(h, Restless(n, Replay(p, h)), h') ==> Reached(p, h')
  {
    hide Replay;
    hide Good;
    hide CanFollow;
    hide LengthPrimitives;
    hide Spender;
    hide First;
    hide Second;
    hide StoredCount;
    RestlessCase(p, h);
    if h == [] {
      FirstFollows();
      PutKeepsGood(p, h, First(), []);
    } else if OnlyFirst(h) {
      SecondFollows(h);
      PutKeepsGood(p, h, Second(), [Spender()]);
    } else {
      forall stop: uint64 | StoredCount(h) > 0 && HasIndex(h, stop)
        ensures Reached(p, Strip(h, stop, StoredCount(h) - 1))
      {
        StripReached(p, h, stop);
      }
    }
  }

  /** Which blocks are there decides the call, and there are never more than two. */
  lemma RestlessCase(p: Primitives, h: seq<Item>)
    requires Reached(p, h)
    ensures Entry(BLOCK_INDEXES, Index(0)) in Replay(p, h) <==> h != []
    ensures h != [] ==> (Entry(BLOCK_INDEXES, Index(1)) !in Replay(p, h) <==> OnlyFirst(h))
    ensures StoredCount(h) <= 2
  {
    hide Replay;
    hide Separated;
    hide StoredCount;
    hide Second;
    hide Spender;
    SecondReward();
    IndexStored(p, h, 0);
    IndexStored(p, h, 1);
    NumberedIndexes(h, 0);
    assert h != [] ==> HasIndex(h, 0);
    assert !HasIndex(h, 2);
    if h != [] && !OnlyFirst(h) {
      var i :| 1 <= i < |h| && h[i] != Residue(Second());
      assert h[i].block.index == 1;
      assert HasIndex(h, 1);
    }
  }

  lemma StripReached(p: Primitives, h: seq<Item>, stop: uint64)
    requires Reached(p, h) && HasIndex(h, stop) && 0 < StoredCount(h) <= 2
    ensures Reached(p, Strip(h, stop, StoredCount(h) - 1))
  {
    hide Good;
    hide StoredCount;
    hide First;
    hide Second;
    hide Spender;
    hide HasIndex;
    hide Replay;
    hide RewindAsIntended;
    StripKeepsGood(p, h, stop);
    var r := Strip(h, stop, StoredCount(h) - 1);
    FirstIndex();
    forall i | 1 <= i < |r| ensures r[i] == Residue(Second()) || r[i] == Stored(Second(), [Spender()]) {
      assert h[i] == Residue(Second()) || h[i] == Stored(Second(), [Spender()]);
    }
  }

  lemma FirstIndex()
    ensures First().index == 0
  {
  }

  /** For any number of calls, whatever fails: two blocks, a rewind, the second block again, and so on. */
  lemma {:induction false} RestlessAllowed(h: seq<Item>, n: nat)
    requires Reached(LengthPrimitives(), h)
    ensures AllowedPolicy(LengthPrimitives(), h, Restless, n)
    decreases n
  {
    hide Replay;
    hide Reached;
    hide Allowed;
    hide MayBecome;
    hide Restless;
    hide LengthPrimitives;
    if n > 0 {
      var p := LengthPrimitives();
      RestlessStep(p, h, n);
      forall h' | MayBecome(h, Restless(n, Replay(p, h)), h') ensures AllowedPolicy(p, h', Restless, n - 1) {
        RestlessAllowed(h', n - 1);
      }
    }
  }

  /** What the policy calls, by what is there. */
  lemma RestlessCalls(p: Primitives, h: seq<Item>, n: nat)
    requires Reached(p, h)
    ensures Restless(n, Replay(p, h)) ==
      if h == [] then PutEvent(First(), [])
      else if OnlyFirst(h) then PutEvent(Second(), [Spender()])
      else RewindEvent(0)
  {
    hide Replay;
    hide Reached;
    hide OnlyFirst;
    RestlessCase(p, h);
    IndexOrder(0, 1);
  }

  /** From the empty store the policy may be followed for ever, and where calls succeed it does all three. */
  lemma RestlessRuns(n: nat)
    ensures AllowedPolicy(LengthPrimitives(), [], Restless, n)
    ensures
      var p := LengthPrimitives();
      && Restless(n, Replay(p, [])) == PutEvent(First(), [])
      && Restless(n, Replay(p, [Stored(First(), [])])) == PutEvent(Second(), [Spender()])
      && Restless(n, Replay(p, [Stored(First(), []), Stored(Second(), [Spender()])])) == RewindEvent(0)
      && Restless(n, Replay(p, [Stored(First(), []), Residue(Second())])) == PutEvent(Second(), [Spender()])
  {
    hide *;
    var p := LengthPrimitives();
    EmptyIsGood(p);
    var h1, h2, h3 := Histories();
    AllReached(p, h1, h2, h3);
    RestlessAllowed([], n);
    RestlessCalls(p, [], n);
    RestlessCalls(p, h1, n);
    RestlessCalls(p, h2, n);
    RestlessCalls(p, h3, n);
  }

  lemma AllReached(p: Primitives, h1: seq<Item>, h2: seq<Item>, h3: seq<Item>)
    requires Good(p, []) && Good(p, h1) && Good(p, h2) && Good(p, h3)
    requires h1 == [Stored(First(), [])]
    requires h2 == [Stored(First(), []), Stored(Second(), [Spender()])]
    requires h3 == [Stored(First(), []), Residue(Second())]
    ensures Reached(p, []) && Reached(p, h1) && Reached(p, h2) && Reached(p, h3)
    ensures OnlyFirst(h1) && !OnlyFirst(h2) && OnlyFirst(h3)
  {
    hide Good;
    hide First;
    hide Second;
    hide Spender;
    assert h2[1] != Residue(Second());
  }
}
