/**
 What acceptance comes to: the conditions on the fields of a transaction, written out with their numbers,
 and the error of the first one that fails. The checks themselves are in `Acceptance`.
 */
module AcceptanceRules {
  import opened Acceptance
  import opened Bytes
  import opened Collections
  import opened Crypto
  import opened Errors
  import opened Ordering
  import Fees
  import Tx = Transactions

  // ---------------------------------------------------------------- the conditions

  ghost predicate SoundOutput(o: Tx.Output) {
    o.publicEphemeral != EMPTY_KEY && o.amount != 0 && o.commitment != EMPTY_KEY
  }

  /** What every user transaction has to satisfy. */
  ghost predicate SoundBody(p: Primitives, prefix: Tx.Prefix, body: Tx.Body) {
    && prefix.publicKey != EMPTY_KEY
    && body.fee > 0
    && 1 <= |body.keyImages| <= 8 && Distinct(body.keyImages)
    && (forall i :: 0 <= i < |body.keyImages| ==> p.inSubgroup(body.keyImages[i]))
    && 2 <= |body.outputs| <= 8
    && (forall i :: 0 <= i < |body.outputs| ==> SoundOutput(body.outputs[i]))
  }

  /** One unit and one per started 32 bytes above 320, less 2 percent for each zero after the first, up to 30. */
  function FeeAsked(size: nat, zeros: nat): int {
    var base := 1 + if size <= 320 then 0 else (size - 320 + 31) / 32;
    var percent := if zeros <= 1 then 0 else if zeros >= 16 then 30 else 2 * (zeros - 1);
    base - base * percent / 100
  }

  /** The work is done over the signed bytes and the hash of the range proof. */
  function WorkDone(p: Primitives, prefix: Tx.Prefix, body: Tx.Body, data: Tx.UserData, rangeProofHash: Key): ZeroBits {
    p.leadingZeros(p.argon2id(p.sha3(Tx.EncodeDigest(prefix, body, data) + rangeProofHash)))
  }

  function UncommittedSize(u: Uncommitted): nat {
    |Tx.EncodeDigest(u.prefix, u.body, Tx.NormalData(u.extra))| + |EncodeList(Tx.EncodeKey, u.pseudoCommitments)| +
    |EncodeList(Tx.EncodeKey, u.ringParticipants)| + |EncodeList(EncodeRingSignature, u.signatures)| + |u.rangeProof|
  }

  /** A normal transaction that is accepted with its signatures and range proof still attached. */
  ghost predicate Acceptable(p: Primitives, u: Uncommitted) {
    var zeros := WorkDone(p, u.prefix, u.body, Tx.NormalData(u.extra), p.rangeProofHash(u.rangeProof));
    && u.prefix.header.version == 1
    && SoundBody(p, u.prefix, u.body)
    && |u.extra| <= 1024
    && |u.pseudoCommitments| == |u.signatures| == |u.body.keyImages|
    && p.commitmentsBalance(u.pseudoCommitments, Commitments(u.body.outputs), u.body.fee)
    && p.rangeProofWellBuilt(u.rangeProof)
    && (forall i :: 0 <= i < |u.signatures| ==> p.ringSignatureWellBuilt(u.signatures[i], 512))
    && zeros >= 1
    && u.body.fee >= FeeAsked(UncommittedSize(u), zeros)
  }

  ghost predicate SoundData(version: uint64, data: Tx.UserData) {
    match data
    case NormalData(extra) => version == 1 && |extra| <= 1024
    case StakeData(amount, candidate, viewKey, spendKey) =>
      1 <= version <= 2 && amount > 0 && candidate != EMPTY_KEY && viewKey != EMPTY_KEY && spendKey != EMPTY_KEY
    case RecallData(amount, candidate, stakerId, viewSignature, spendSignature) =>
      && 1 <= version <= 2 && amount > 0 && candidate != EMPTY_KEY && stakerId != EMPTY_KEY
      && viewSignature != EMPTY_SIGNATURE && spendSignature != EMPTY_SIGNATURE
  }

  /** A committed user transaction that is accepted. */
  ghost predicate AcceptableUser(p: Primitives, tx: Tx.Transaction)
    requires tx.User?
  {
    var zeros := WorkDone(p, tx.prefix, tx.body, tx.data, tx.suffix.rangeProofHash);
    && SoundData(tx.prefix.header.version, tx.data)
    && SoundBody(p, tx.prefix, tx.body)
    && zeros >= 1
    && tx.body.fee >= FeeAsked(|Tx.Encode(tx)|, zeros)
  }

  // ---------------------------------------------------------------- accepted exactly then

  lemma FeeIsAsked(size: nat, zeros: ZeroBits)
    ensures RequiredFee(size, zeros) == FeeAsked(size, zeros)
  {
    Fees.FeeClosedForm(size, zeros);
    Fees.BaseFeeClosedForm(size);
  }

  lemma {:induction false} OutputsSound(os: seq<Tx.Output>)
    ensures CheckOutputs(os) == SUCCESS <==> forall i :: 0 <= i < |os| ==> SoundOutput(os[i])
  {
    if os != [] {
      OutputsSound(os[1..]);
      assert forall i :: 1 <= i < |os| ==> os[i] == os[1..][i - 1];
    }
  }

  lemma CommonIff(p: Primitives, versions: set<uint64>, prefix: Tx.Prefix, body: Tx.Body)
    ensures CheckCommon(p, versions, prefix, body) == SUCCESS <==>
      prefix.header.version in versions && SoundBody(p, prefix, body)
  {
    hide InsertAll;
    hide CheckOutputs;
    hide SoundOutput;
    DedupeLength(Tx.EncodeKey, [], body.keyImages);
    OutputsSound(body.outputs);
  }

  /** An uncommitted normal transaction is accepted if and only if it satisfies all the conditions. */
  lemma AcceptedIff(p: Primitives, u: Uncommitted)
    ensures CheckUncommitted(p, u) == SUCCESS <==> Acceptable(p, u)
  {
    hide CheckCommon;
    hide SoundBody;
    hide FeeAsked;
    hide RequiredFee;
    hide Tx.EncodeDigest;
    hide EncodeList;
    CommonIff(p, Versions(Tx.NormalData(u.extra)), u.prefix, u.body);
    FeeIsAsked(|Encode(u)|, Zeros(p, u));
  }

  /** And so is a committed user transaction of any of the three kinds. */
  lemma UserAcceptedIff(p: Primitives, tx: Tx.Transaction)
    requires tx.User?
    ensures CheckUser(p, tx) == SUCCESS <==> AcceptableUser(p, tx)
  {
    hide CheckCommon;
    hide SoundBody;
    hide FeeAsked;
    hide RequiredFee;
    hide Tx.EncodeDigest;
    hide Tx.Encode;
    CommonIff(p, Versions(tx.data), tx.prefix, tx.body);
    FeeIsAsked(|Tx.Encode(tx)|, WorkDone(p, tx.prefix, tx.body, tx.data, tx.suffix.rangeProofHash));
  }

  // ---------------------------------------------------------------- the first failing test

  ghost predicate FirstUnsound(os: seq<Tx.Output>, i: nat) {
    i < |os| && !SoundOutput(os[i]) && forall j :: 0 <= j < i ==> SoundOutput(os[j])
  }

  /** What is wrong with the first output that is not in order. */
  ghost function OutputFault(os: seq<Tx.Output>): ErrorCode {
    if i: nat :| FirstUnsound(os, i) then
      if os[i].publicEphemeral == EMPTY_KEY then TX_OUTPUT_PUBLIC_EPHEMERAL
      else if os[i].amount == 0 then TX_OUTPUT_AMOUNT
      else TX_OUTPUT_COMMITMENT
    else SUCCESS
  }

  /** The first thing wrong with what all user transactions have in common. */
  ghost function BodyFault(p: Primitives, versionKnown: bool, prefix: Tx.Prefix, body: Tx.Body): ErrorCode {
    var inputs, outputs := |body.keyImages|, |body.outputs|;
    if !versionKnown then TX_INVALID_VERSION
    else if prefix.publicKey == EMPTY_KEY then TX_PUBLIC_KEY
    else if body.fee == 0 then TX_MISSING_FEE
    else if inputs < 1 || inputs > 8 then TX_INVALID_INPUT_COUNT
    else if exists i :: 0 <= i < inputs && !p.inSubgroup(body.keyImages[i]) then TX_INVALID_KEY_IMAGE
    else if !Distinct(body.keyImages) then TX_DUPLICATE_KEY_IMAGE
    else if outputs < 2 || outputs > 8 then TX_INVALID_OUTPUT_COUNT
    else OutputFault(body.outputs)
  }

  lemma {:induction false} StopsAtUnsound(os: seq<Tx.Output>) returns (i: nat)
    requires CheckOutputs(os) != SUCCESS
    ensures FirstUnsound(os, i) && CheckOutputs(os) == CheckOutput(os[i])
  {
    i := 0;
    if SoundOutput(os[0]) {
      var k := StopsAtUnsound(os[1..]);
      assert forall j :: 1 <= j < |os| ==> os[1..][j - 1] == os[j];
      i := k + 1;
    }
  }

  lemma FirstUnsoundOutput(os: seq<Tx.Output>)
    ensures CheckOutputs(os) == OutputFault(os)
  {
    hide CheckOutputs;
    OutputsSound(os);
    if CheckOutputs(os) != SUCCESS {
      var i := StopsAtUnsound(os);
      assert forall k: nat :: FirstUnsound(os, k) ==> k == i;
    }
  }

  lemma CommonFault(p: Primitives, versions: set<uint64>, prefix: Tx.Prefix, body: Tx.Body)
    ensures CheckCommon(p, versions, prefix, body) == BodyFault(p, prefix.header.version in versions, prefix, body)
  {
    hide InsertAll;
    hide CheckOutputs;
    hide OutputFault;
    DedupeLength(Tx.EncodeKey, [], body.keyImages);
    FirstUnsoundOutput(body.outputs);
  }

  /** The error of a rejected uncommitted transaction is that of the first condition that fails. */
  lemma UncommittedFault(p: Primitives, u: Uncommitted)
    ensures
      var common := BodyFault(p, u.prefix.header.version == 1, u.prefix, u.body);
      var zeros := WorkDone(p, u.prefix, u.body, Tx.NormalData(u.extra), p.rangeProofHash(u.rangeProof));
      CheckUncommitted(p, u) == (
        if common != SUCCESS then common
        else if |u.extra| > 1024 then TX_EXTRA_TOO_LARGE
        else if |u.pseudoCommitments| != |u.body.keyImages| then TX_INVALID_PSEUDO_COMMITMENT_COUNT
        else if !p.commitmentsBalance(u.pseudoCommitments, Commitments(u.body.outputs), u.body.fee) then
          TX_COMMITMENTS_DO_NOT_BALANCE
        else if !p.rangeProofWellBuilt(u.rangeProof) then TX_INVALID_RANGE_PROOF
        else if |u.signatures| != |u.body.keyImages| then TX_SIG_SIZE_MISMATCH
        else if exists i :: 0 <= i < |u.signatures| && !p.ringSignatureWellBuilt(u.signatures[i], 512) then
          TX_INVALID_SIGNATURE
        else if zeros == 0 then TX_MINIMUM_POW
        else if u.body.fee < FeeAsked(UncommittedSize(u), zeros) then TX_LOW_FEE
        else SUCCESS)
  {
    hide CheckCommon;
    hide BodyFault;
    hide FeeAsked;
    hide RequiredFee;
    hide Tx.EncodeDigest;
    hide EncodeList;
    CommonFault(p, Versions(Tx.NormalData(u.extra)), u.prefix, u.body);
    FeeIsAsked(|Encode(u)|, Zeros(p, u));
  }

  /** The same for the committed forms. */
  lemma UserFault(p: Primitives, tx: Tx.Transaction)
    requires tx.User?
    ensures
      var version := tx.prefix.header.version;
      var common := BodyFault(p, version == 1 || (version == 2 && !tx.data.NormalData?), tx.prefix, tx.body);
      var zeros := WorkDone(p, tx.prefix, tx.body, tx.data, tx.suffix.rangeProofHash);
      CheckUser(p, tx) == (
        if common != SUCCESS then common
        else if tx.data.NormalData? && |tx.data.extra| > 1024 then TX_EXTRA_TOO_LARGE
        else if tx.data.StakeData? && tx.data.stakeAmount == 0 then TX_STAKE_NO_AMOUNT
        else if tx.data.StakeData? && tx.data.candidate == EMPTY_KEY then STAKING_CANDIDATE_NOT_FOUND
        else if tx.data.StakeData? && tx.data.viewKey == EMPTY_KEY then TX_PUBLIC_VIEW_KEY_NOT_FOUND
        else if tx.data.StakeData? && tx.data.spendKey == EMPTY_KEY then TX_PUBLIC_SPEND_KEY_NOT_FOUND
        else if tx.data.RecallData? && tx.data.recallAmount == 0 then TX_STAKE_NO_AMOUNT
        else if tx.data.RecallData? && tx.data.recallCandidate == EMPTY_KEY then STAKING_CANDIDATE_NOT_FOUND
        else if tx.data.RecallData? && tx.data.stakerId == EMPTY_KEY then TX_STAKER_ID
        else if tx.data.RecallData? && tx.data.viewSignature == EMPTY_SIGNATURE then TX_RECALL_VIEW_SIGNATURE
        else if tx.data.RecallData? && tx.data.spendSignature == EMPTY_SIGNATURE then TX_RECALL_SPEND_SIGNATURE
        else if zeros == 0 then TX_MINIMUM_POW
        else if tx.body.fee < FeeAsked(|Tx.Encode(tx)|, zeros) then TX_LOW_FEE
        else SUCCESS)
  {
    hide CheckCommon;
    hide BodyFault;
    hide FeeAsked;
    hide RequiredFee;
    hide Tx.EncodeDigest;
    hide Tx.Encode;
    CommonFault(p, Versions(tx.data), tx.prefix, tx.body);
    FeeIsAsked(|Tx.Encode(tx)|, WorkDone(p, tx.prefix, tx.body, tx.data, tx.suffix.rangeProofHash));
  }
}
