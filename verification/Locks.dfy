/**
 The lock test of ring members. An output is meant to be locked until its unlock block is reached; the
 test turns it away from then on, and lets it pass before.
 */
module Locks {
  import opened Acceptance
  import opened Bytes
  import opened Crypto
  import opened Errors
  import opened Lmdb
  import opened Lookups
  import opened ReadBack
  import opened Runs
  import opened Tables
  import opened Validation
  import Tx = Transactions
  import B = Blocks

  type Inputs = seq<(Tx.Output, uint64)>

  /** What the lock is for: every input has reached its unlock block. */
  predicate AllUnlocked(blockIndex: uint64, inputs: Inputs) {
    forall i | 0 <= i < |inputs| :: inputs[i].1 <= blockIndex
  }

  predicate SomeEarlier(blockIndex: uint64, inputs: Inputs) {
    exists i | 0 <= i < |inputs| :: inputs[i].1 < blockIndex
  }

  predicate SomeLater(blockIndex: uint64, inputs: Inputs) {
    exists i | 0 <= i < |inputs| :: inputs[i].1 > blockIndex
  }

  /** The ring as it is meant to be judged. */
  ghost predicate RingUnlocked(s: Store, blockIndex: uint64, ring: seq<Key>) {
    ReadOutputs(s, ring).Ok? && AllUnlocked(blockIndex, ReadOutputs(s, ring).value)
  }

  /** Everything validation asks for except the lock test. */
  ghost predicate ValidButForLocks(p: Primitives, s: Store, u: Uncommitted) {
    && CheckUncommitted(p, u) == SUCCESS
    && |u.signatures| == |u.body.keyImages|
    && p.rangeProofVerifies(u.rangeProof, Commitments(u.body.outputs))
    && !AnySpent(s, u.body.keyImages)
    && ReadOutputs(s, u.ringParticipants).Ok?
    && SignaturesVerify(p, u, ReadOutputs(s, u.ringParticipants).value)
  }

  ghost predicate ValidAsIntended(p: Primitives, s: Store, blockIndex: uint64, u: Uncommitted) {
    ValidButForLocks(p, s, u) && RingUnlocked(s, blockIndex, u.ringParticipants)
  }

  /**
   The verdict on a transaction is the intended one if and only if it fails for another reason, or its
   ring has members from before the block exactly if it has members from after it; a ring whose members
   all unlock at this very block is one such, a ring with one member from another block never is.
   */
  lemma LockVerdictIff(p: Primitives, s: Store, blockIndex: uint64, u: Uncommitted)
    ensures (Valid(p, s, blockIndex, u) <==> ValidAsIntended(p, s, blockIndex, u)) <==>
      !ValidButForLocks(p, s, u) ||
      (var inputs := ReadOutputs(s, u.ringParticipants).value;
       SomeEarlier(blockIndex, inputs) == SomeLater(blockIndex, inputs))
  {
    hide CheckUncommitted;
    hide SignaturesVerify;
    hide ReadOutputs;
    hide AnySpent;
    if ValidButForLocks(p, s, u) {
      LockTests(blockIndex, ReadOutputs(s, u.ringParticipants).value);
    }
  }

  lemma LockTests(blockIndex: uint64, inputs: Inputs)
    ensures AnyLocked(blockIndex, inputs) <==> SomeEarlier(blockIndex, inputs)
    ensures AllUnlocked(blockIndex, inputs) <==> !SomeLater(blockIndex, inputs)
  {
  }

  /** For a ring of one output the two verdicts agree only at the very block it unlocks. */
  lemma OneMemberIff(s: Store, blockIndex: uint64, k: Key)
    requires ReadOutput(s, k).Ok?
    ensures (RingUsable(s, blockIndex, [k]) <==> RingUnlocked(s, blockIndex, [k])) <==>
      ReadOutput(s, k).value.1 == blockIndex
  {
    hide ReadOutput;
    ReadOutputsEach(s, [k]);
  }

  /**
   An output free since before this block, such as one with unlock block 0 at every later block, makes
   every ring with it unusable and its transaction invalid, although nothing in it is locked.
   */
  lemma FreeOutputRefused(p: Primitives, s: Store, blockIndex: uint64, u: Uncommitted, i: nat)
    requires i < |u.ringParticipants| && ReadOutputs(s, u.ringParticipants).Ok?
    requires ReadOutput(s, u.ringParticipants[i]).Ok? && ReadOutput(s, u.ringParticipants[i]).value.1 < blockIndex
    ensures !Valid(p, s, blockIndex, u)
    ensures !AnySpent(s, u.body.keyImages) ==> StorageVerdict(s, blockIndex, u) == TX_OUTPUT_LOCKED
  {
    hide CheckUncommitted;
    hide SignaturesVerify;
    hide ReadOutput;
    hide AnySpent;
    hide ReadOutputs;
    ReadOutputsEach(s, u.ringParticipants);
    assert ReadOutputs(s, u.ringParticipants).value[i].1 < blockIndex;
  }

  /** Outputs locked beyond this block, however far, are accepted. */
  lemma LockedOutputsAccepted(p: Primitives, s: Store, blockIndex: uint64, u: Uncommitted)
    requires ValidButForLocks(p, s, u)
    requires forall i :: 0 <= i < |u.ringParticipants| ==>
      ReadOutput(s, u.ringParticipants[i]).Ok? && ReadOutput(s, u.ringParticipants[i]).value.1 > blockIndex
    ensures Valid(p, s, blockIndex, u)
    ensures u.ringParticipants != [] ==> !ValidAsIntended(p, s, blockIndex, u)
  {
    hide CheckUncommitted;
    hide SignaturesVerify;
    hide ReadOutput;
    hide AnySpent;
    hide ReadOutputs;
    ReadOutputsEach(s, u.ringParticipants);
    var inputs := ReadOutputs(s, u.ringParticipants).value;
    assert forall i :: 0 <= i < |inputs| ==> inputs[i].1 > blockIndex;
    if u.ringParticipants != [] {
      assert inputs[0].1 > blockIndex;
    }
  }

  // ---------------------------------------------------------------- selection

  /** Eligible in the intended sense: stored under its hash, its unlock block reached. */
  ghost predicate FreeToUse(p: Primitives, s: Store, blockIndex: uint64, k: Data) {
    && ReadOutput(s, k).Ok?
    && Tx.OutputHash(p, ReadOutput(s, k).value.0) == k
    && ReadOutput(s, k).value.1 <= blockIndex
  }

  ghost predicate StoredUnderHash(p: Primitives, s: Store, k: Data) {
    ReadOutput(s, k).Ok? && Tx.OutputHash(p, ReadOutput(s, k).value.0) == k
  }

  ghost function FreeKeys(p: Primitives, s: Store, blockIndex: uint64): set<Data> {
    set k | k in TableKeys(s, TRANSACTION_OUTPUTS) && FreeToUse(p, s, blockIndex, k)
  }

  /** The selection draws from the outputs it should if and only if all outputs unlock at this very block. */
  lemma SelectionIntendedIff(p: Primitives, s: Store, blockIndex: uint64)
    ensures EligibleKeys(p, s, blockIndex) == FreeKeys(p, s, blockIndex) <==>
      forall k :: k in TableKeys(s, TRANSACTION_OUTPUTS) && StoredUnderHash(p, s, k) ==>
        ReadOutput(s, k).value.1 == blockIndex
  {
    hide ReadOutput;
    hide TableKeys;
    hide Tx.OutputHash;
    var a, b := EligibleKeys(p, s, blockIndex), FreeKeys(p, s, blockIndex);
    forall k | k in TableKeys(s, TRANSACTION_OUTPUTS) && StoredUnderHash(p, s, k)
      ensures (k in a <==> k in b) <==> ReadOutput(s, k).value.1 == blockIndex
    {
    }
    if forall k :: k in TableKeys(s, TRANSACTION_OUTPUTS) && StoredUnderHash(p, s, k) ==>
         ReadOutput(s, k).value.1 == blockIndex {
      forall k ensures k in a <==> k in b {
        if k in a || k in b {
          assert StoredUnderHash(p, s, k);
        }
      }
    }
  }

  /** An output free since before this block is never drawn. */
  lemma FreeOutputNeverDrawn(p: Primitives, s: Store, blockIndex: uint64, draws: seq<Key>, k: Data)
    requires ReadOutput(s, k).Ok? && ReadOutput(s, k).value.1 < blockIndex
    ensures k !in DrawnKeys(p, s, blockIndex, draws)
  {
    hide ReadOutput;
    hide FirstFrom;
  }

  // ---------------------------------------------------------------- a request that never completes

  lemma {:induction false} WrittenFrom(ws: seq<Write>, e: Entry) returns (i: nat)
    requires e in PutAll(map[], ws)
    ensures i < |ws| && ws[i] == Write(e, PutAll(map[], ws)[e])
  {
    var last := ws[|ws| - 1];
    if last.entry == e {
      i := |ws| - 1;
    } else {
      i := WrittenFrom(ws[..|ws| - 1], e);
    }
  }

  /** After a first block without members, stored outputs are those of its reward, with its unlock block. */
  lemma FirstBlockOutputs(p: Primitives, b: B.Block, k: Data)
    requires Entry(TRANSACTION_OUTPUTS, k) in AfterPut(p, map[], b, [])
    ensures ReadOutput(AfterPut(p, map[], b, []), k).Ok?
    ensures ReadOutput(AfterPut(p, map[], b, []), k).value.1 == b.reward.UnlockBlock()
  {
    hide B.Hash;
    hide B.FullBytes;
    hide Tx.Hash;
    hide Tx.OutputHash;
    hide StoredOutput;
    hide StoredTransaction;
    hide PutAll;
    hide ParseStoredOutput;
    var ws := BlockWrites(p, b, []);
    var i := WrittenFrom(ws, Entry(TRANSACTION_OUTPUTS, k));
    var os := b.reward.NewOutputs();
    var outs := OutputWrites(p, os, b.reward.UnlockBlock());
    assert ws == ([Write(TransactionEntry(p, b.reward), StoredTransaction(b.reward, B.Hash(p, b)))] +
                  KeyImageWrites(b.reward.KeyImages()) + outs) + HeaderWrites(p, b);
    var skipped := 1 + |b.reward.KeyImages()|;
    assert ws[i] == outs[i - skipped];
    StoredOutputReadsBack(os[i - skipped], b.reward.UnlockBlock());
  }

  /**
   A reachable store on which a request is neither refused nor ever completed: the chain is one genesis
   block with outputs, and a later block asks for one output. No list of draws finds any.
   */
  lemma NeverCompleted(p: Primitives, b: B.Block, blockIndex: uint64, draws: seq<Key>)
    requires b.WellFormed() && b.index == 0 && b.transactions == []
    requires b.reward.Genesis? && b.reward.outputs != [] && b.reward.prefix.unlockBlock < blockIndex
    ensures AdmissibleRun(p, [], [PutEvent(b, [])])
    ensures
      var s := StoreAfterRun(p, map[], [PutEvent(b, [])]);
      AllShaped(s) && |TableKeys(s, TRANSACTION_OUTPUTS)| >= 1 && |DrawnKeys(p, s, blockIndex, draws)| < 1
  {
    hide B.Hash;
    hide Tx.Hash;
    hide AfterPut;
    hide AdmissibleRun;
    hide ReadOutput;
    hide Eligible;
    var events := [PutEvent(b, [])];
    FirstBlockAdmissible(p, b);
    ReachableShaped(p, events);
    var s := AfterPut(p, map[], b, []);
    assert events[1..] == [];
    assert StoreAfterRun(p, map[], events) == s;
    FirstOutputStored(p, b);
    forall k | k in DrawnKeys(p, s, blockIndex, draws) ensures false {
      FirstBlockOutputs(p, b, k);
      NotEligible(p, s, blockIndex, k);
    }
    assert DrawnKeys(p, s, blockIndex, draws) == {};
  }

  /** The request itself: whatever is drawn, it is still drawing. */
  method AskForOne(p: Primitives, b: B.Block, s: Store, blockIndex: uint64, draws: seq<Key>) returns (r: Selection)
    requires b.WellFormed() && b.index == 0 && b.transactions == []
    requires b.reward.Genesis? && b.reward.outputs != [] && b.reward.prefix.unlockBlock < blockIndex
    requires s == StoreAfterRun(p, map[], [PutEvent(b, [])])
    ensures r.StillDrawing?
  {
    hide *;
    NeverCompleted(p, b, blockIndex, draws);
    r := GetRandomOutputs(p, s, blockIndex, 1, draws);
  }

  lemma NotEligible(p: Primitives, s: Store, blockIndex: uint64, k: Data)
    requires ReadOutput(s, k).Ok? && ReadOutput(s, k).value.1 < blockIndex
    ensures !Eligible(p, s, blockIndex, k)
  {
  }

  lemma FirstOutputStored(p: Primitives, b: B.Block)
    requires b.reward.Genesis? && b.reward.outputs != []
    ensures |TableKeys(AfterPut(p, map[], b, []), TRANSACTION_OUTPUTS)| >= 1
  {
    hide B.Hash;
    hide B.FullBytes;
    hide Tx.Hash;
    hide Tx.OutputHash;
    hide StoredOutput;
    hide StoredTransaction;
    hide PutAll;
    var ws, s := BlockWrites(p, b, []), AfterPut(p, map[], b, []);
    var w := OutputWrite(p, b.reward.outputs[0], b.reward.UnlockBlock());
    assert OutputWrites(p, b.reward.NewOutputs(), b.reward.UnlockBlock())[0] == w;
    assert w in ws;
    var i :| 0 <= i < |ws| && ws[i] == w;
    assert Entries(ws)[i] == w.entry;
    PutAllKeys(map[], ws);
    assert w.entry.key in TableKeys(s, TRANSACTION_OUTPUTS);
  }
}
