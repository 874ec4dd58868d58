# TurtleCoin node: a verified model of its chain, its codecs and its peers

These Dafny modules model the parts of the TurtleCoin v2 node that keep state, and prove what the state is
kept for: the chain store over LMDB, the byte codecs and what is hashed and signed, the acceptance of
transactions, and the peer-to-peer node. `dafny verify dfyconfig.toml` checks everything.

| file | what it models |
|---|---|
| `Bytes`, `Ordering`, `Collections`, `Errors` | bytes, varints, counted lists, `std::set`/`std::map` as sorted sequences, big-endian keys, result codes |
| `Crypto` | the external cryptography as a record of functions; what is assumed of it is a named predicate in the `requires` of the theorems that need it |
| `Transactions`, `Blocks`, `BlockObject` | encodings, hashes, digest modes and signatures as functions, and the block as the object that is filled, appended to and signed in place |
| `Fees`, `Acceptance`, `AcceptanceRules`, `Validation`, `Lookups` | fee arithmetic, construction and work checks and the conditions they come to, double-spend and ring checks, the lookups that walk tables |
| `Lmdb`, `Retry`, `Environments` | ordered tables, the attempts and retries of a write as values, and the environment and its write transactions as objects |
| `Tables`, `ChainStorage` | what a block writes, deletes and reads, and `put_block`, `del_block` and `rewind` with their retries |
| `ReadBack`, `History`, `PaidOutputs`, `Rewinding`, `Ledger`, `Runs`, `ChainRuns`, `Witness` | what is read back, what a history of puts and rewinds leaves behind, undoing, agreement of the six tables, runs from the empty store, runs of the storage object under failures, and concrete runs |
| `Layouts`, `ShippedPut` | the two table layouts on which the shipped writers and readers disagree |
| `Locks` | what the lock test of ring members lets through, against what it is for |
| `PeerDatabase`, `P2pNode`, `NetworkRuns` | the peer table, the packet handlers and the connection manager, and whole runs of nodes |

## How the state is modelled

* The store is one map from (table, key) to bytes. A write transaction works on a copy of it; puts, deletions,
  commits and map resizes are answered by arbitrary functions of a call counter and the map size, so every
  theorem about them holds for every pattern of failures. Nothing is assumed about when "full" answers stop:
  the retry loops may run for ever, so an operation is watched for `patience` attempts and is `Retrying` when all
  of them have started over. `Retry.Loop` is the loop as a value; `PutBlock` and `DelBlock` compute exactly it, and
  the lemmas of `Retry` say when it ends, after how many rounds, and with what.
* A *history* is the list of blocks put so far. A rewound block leaves a residue, because its reward transaction
  is never deleted. `Replay` of a history is the store; `Separated` says that blocks do not step on each other's
  entries. `Runs` shows that this holds after every admissible run, where a put is admissible when its members
  validate against the store, share no key image or output, and bring the next index and a new timestamp.
* Secret nonces, shuffles, random hashes, clocks, dialling results and lost connections are arguments.

## Where the code departs from its intent

* `put_transaction` stores a transaction before its block hash and `put_transaction_output` the unlock block
  before the output, while every reader expects the opposite. The storage modules use the readers' layout.
  `Layouts` proves that what the writers store reads back exactly when the two parts commute as byte strings, which
  no acceptable output with unlock block 0 does (`WrittenFreeOutputLost`) and the default reward does for one block
  hash only (`WrittenRewardReadsBackIff`). `ShippedPutThenGetIff` says which blocks
  come back as shipped, `UserTransactionLost` and `Witness.SecondLost` that those with ordinary user transactions do
  not, and `ShippedOutputsNeverDrawn` that free outputs are then of no use to anybody.
* `rewind` starts at the block count, one past the tip of a chain numbered from 0, so it fails at once and
  deletes nothing (`ShippedRewindAlwaysFails`, and `ChainRuns.RewindShipped` for the object, under any answers).
  `ShippedRewindIff` gives the exact condition. `RewindFromTip` and the undo theorems use the intended start.
* `del_block` does not delete the reward transaction. This is kept; the undo theorems say exactly what remains.
* `deserialize` leaves the producer fields of a used block object alone when the bytes carry no producer:
  `DeserializeIff`.
* `block_t` round-trips only when producer key and signature are both set or both default and the reward
  carries the tag of its variant: `BlockRoundTrip`.
* The lock test of ring members turns away outputs whose unlock block lies *before* the current one, and lets pass
  those whose unlock block is still to come, in the selection and in the validation alike. An output free from the
  start is refused at every later block (`FreeOutputRefused`, `FreeOutputNeverDrawn`), one locked for ever is accepted
  (`LockedOutputsAccepted`). `LockVerdictIff`, `OneMemberIff` and `SelectionIntendedIff` give the exact conditions under
  which the intended verdict results; for a single member it is the very block at which it unlocks.
* `get_random_outputs` compares the request with the number of stored outputs, not of eligible ones, so a
  request may be neither refused nor ever completed: `SelectionPossibleIff`, and `NeverCompleted` for a chain of one
  genesis block.
* The prune time is an unsigned difference and wraps around during the first day of the clock: `PruneExactIff`.
* The number of missing connections is an unsigned difference and wraps around above the target:
  `TargetRespectedIff`, `AboveTargetGrows`.
* The retry macro expands the map for "transaction full" too. Where a larger map does not cure that, the loop never
  ends and grows the map each time: `SizeDecidesEnd`, `TransactionFullForEver`, `ChainRuns.PutNeverEnds`.
* The construction check does not look at the type tag, and committing sets it. A transaction with another tag is
  hashed anew, so its acceptance need not carry over: `AcceptanceCarriesOver`, `OtherTagMayBeRejected`.
* `mine` skips nonce 0 when the present nonce does not work: `Mine`.

## Model

| member | source | states |
|---|---|---|
| Bytes.VarintRoundTrip | include/blockchain/base_types.h:41-46 | a varint is read back in front of any bytes |
| Bytes.VarintInjective | include/blockchain/base_types.h:48-53 | different numbers never share an encoding, whatever follows |
| Bytes.ListRoundTrip | include/blockchain/transaction_staker.h:79-105 | a counted list is read back, leaving what follows, for every element codec that is exact |
| Ordering.InsertAllRebuilds | include/blockchain/block.h:117-126 | reading a set in its own order rebuilds the same set |
| Ordering.InsertAllMembers | include/blockchain/block.h:78-84 | inserting into an ordered container adds exactly the elements with new keys |
| Ordering.DedupeLength | include/blockchain/transaction_normal.h:112-119 | sorting with removal of repeats keeps the length if and only if nothing is repeated |
| Ordering.IndexOrder | src/database/db_lmdb.cpp:1026-1040 | byte order of the 8-byte keys is numeric order, and the number is read back |
| Transactions.OutputRoundTrip | include/blockchain/base_types.h:361-385 | an output is read back in front of any bytes |
| Transactions.BodyRoundTrip | include/blockchain/base_types.h:442-484 | nonce, fee, key images and outputs are read back |
| Transactions.DataRoundTrip | include/blockchain/base_types.h:666-790 | the part of a user transaction that its tag decides on is read back |
| Transactions.GenesisRoundTrip | include/blockchain/transaction_genesis.h:49-146 | the genesis variant is read back |
| Transactions.StakerRoundTrip | include/blockchain/transaction_staker.h:79-157 | the staker variant with its two lists is read back |
| Transactions.UserRoundTrip | include/blockchain/transaction_normal.h:56-66 | a committed user transaction is read back |
| Transactions.DecodedVariant | src/core/blockchain_storage.cpp:361-383 | the variant read is the one the peeked tag names |
| Transactions.TransactionRoundTrip | src/core/blockchain_storage.cpp:359-383 | peek and decode return the transaction if and only if it carries the tag of its variant |
| Transactions.HashCommits | include/blockchain/transaction_normal.h:155-172 | two different tagged transactions of one kind with the same hash give a collision of the hash function |
| Blocks.RewardRoundTrip | include/blockchain/block.h:100-114 | the nested reward survives if and only if it is tagged as what it is |
| Blocks.ProducerRoundTrip | include/blockchain/block.h:128-135 | the optional producer section is read back; half-set fields are lost |
| Blocks.BlockRoundTrip | include/blockchain/block.h:90-152 | decoding an encoded block returns it and the trailing bytes, if and only if its producer fields are consistent and its reward is tagged |
| Blocks.HashCommits | include/blockchain/block.h:235-242 | the hash is the full digest, and two different well-formed blocks with the same hash are a collision of the hash function |
| Blocks.DigestPrefixes | include/blockchain/block.h:311-366 | producer bytes are a prefix of validator bytes, and these of the full bytes |
| Blocks.EndorsementsKeepDigests | include/blockchain/block.h:566-580 | validator signatures change neither digest that is signed |
| Blocks.SignAllInserts | include/blockchain/block.h:566-580 | a run of validator signings is a run of map insertions over one digest |
| Blocks.SignThenValidate | include/blockchain/block.h:479-580 | a block signed by its producer and then by any validators, in any order and with repeats, passes the construction check exactly when its reward pays someone, someone endorsed it, no endorser is the producer, and older endorsements check |
| Blocks.ConstructionIff | include/blockchain/block.h:479-558 | for every block: accepted if and only if the reward's outputs are not empty, no validator is the producer, the producer's signature checks over its digest, and producer key and signature are set and endorsed by some validators, all correctly; throws exactly if all but the last holds and key or signature is unset; refused if the producer's signature does not check |
| Blocks.SignedBlockRoundTrip | include/blockchain/block.h:295-366 | a block so signed is read back as it was signed |
| Blocks.FinalHashFromEndorsements | include/blockchain/block.h:239-242 | the final hash depends only on the resulting signature map |
| Blocks.SigningOrderIrrelevant | include/blockchain/block.h:566-580 | validators who each sign in one way reach the same block in every order |
| BlockObject.Writer.AppendCounted | include/blockchain/transaction_staker.h:140-157 | the writing loop appends the counted list |
| BlockObject.Reader.TakeCounted | include/blockchain/transaction_staker.h:84-93 | the reading loop fills a cleared vector with exactly the counted list, or throws |
| BlockObject.Reader.TakeOrdered | include/blockchain/block.h:117-126 | the reading loop fills a cleared set or map by insertion |
| BlockObject.ReadReward | include/blockchain/block.h:100-114 | the reader picks the reward variant by the peeked type |
| BlockObject.DecodeSplit | include/blockchain/block.h:90-152 | the staged reading of a block is the decoding function |
| BlockObject.Block.Serialize | include/blockchain/block.h:311-366 | the object appends exactly the bytes of the mode, and throws exactly for a validator digest without a producer |
| BlockObject.Block.Deserialize | include/blockchain/block.h:90-152 | the object's fields become the decoded ones, the producer fields only if the bytes carry them |
| BlockObject.DeserializeIff | include/blockchain/block.h:128-135 | reading into a used object yields the sent block if and only if it carries a producer or the object held none |
| BlockObject.Block.AppendTransactionHash | include/blockchain/block.h:65-71 | the hash is in the set afterwards, which is in order with the same other members; a hash already there changes nothing |
| BlockObject.Block.AppendValidatorSignature | include/blockchain/block.h:78-84 | the key has a signature afterwards, its old one if it had one; nobody else's changes and the map is in order |
| BlockObject.Block.MessageDigest | include/blockchain/block.h:282-287 | the hash of what the mode serialises |
| BlockObject.Block.ProducerSign | include/blockchain/block.h:295-304 | key and signature are set as the signing function says, nothing else changes |
| BlockObject.Block.ValidatorSign | include/blockchain/block.h:566-580 | the endorsement is inserted and returned; without a producer it throws and changes nothing |
| BlockObject.Block.ValidateConstruction | include/blockchain/block.h:479-558 | returns, for every block, true exactly under these conditions, throws exactly when the endorsements are reached without a producer key or signature, and returns false when the producer's signature does not check |
| Fees.BaseFeeClosedForm | src/common/network_fees.cpp:11-31 | one unit plus one per started chunk of 32 bytes above the 320 free ones |
| Fees.BaseFeeFits | src/common/network_fees.cpp:23-30 | the base fee of every 64-bit size fits 64 bits |
| Fees.NoUnderflow | src/common/network_fees.cpp:85-89 | the discount never exceeds what it is taken from |
| Fees.FeeBounds | src/common/network_fees.cpp:71-96 | the fee is at least 1, at most the base fee and at least 70 percent of it |
| Fees.FeeMonotone | src/common/network_fees.cpp:71-96 | larger transactions never pay less, more work never pays more |
| Acceptance.CheckedKeyImages | include/blockchain/transaction_normal.h:98-119 | a transaction that passes has key images and no two of them are equal |
| Acceptance.CommittedDigest | include/blockchain/transaction_normal.h:548-573 | committing keeps the signed bytes if and only if the tag was the normal one |
| Acceptance.CommittedHashes | include/blockchain/transaction_normal.h:446-500 | both forms share hash and proof-of-work hash, and the hash covers the digest and both suffix hashes |
| Acceptance.CommittedIsSmaller | include/blockchain/transaction_normal.h:439-444 | the committed form has the announced size and is the smaller one |
| Acceptance.CommittedNotLarger | include/blockchain/transaction_normal.h:439-444 | whatever the tag was, the committed form is no larger than announced |
| Acceptance.AcceptanceCarriesOver | src/core/transaction_validator.cpp:36-96 | acceptance carries over exactly if the committed form's work is enough for its fee, and always for the normal tag |
| Acceptance.OtherTagMayBeRejected | src/core/transaction_validator.cpp:36-96 | with another tag, whose committed form hashes anew, the same transaction can be accepted before and rejected after |
| Acceptance.Mine | include/blockchain/transaction_normal.h:465-484 | mining succeeds exactly when the present nonce or a later one works, and finds the least |
| AcceptanceRules.AcceptedIff | src/core/transaction_validator.cpp:36-66 | an uncommitted normal transaction passes if and only if its version is 1, its public key is set, its fee positive, its 1 to 8 key images are distinct and in the subgroup, its 2 to 8 outputs complete, its extra field at most 1024 bytes, its pseudo commitments and signatures as many as its key images, its commitments in balance, range proof and ring signatures of 512 members well built, its work at least one zero, and its fee what size and work ask for |
| AcceptanceRules.UserAcceptedIff | src/core/transaction_validator.cpp:68-96 | the same for committed normal, stake and recall transactions with their own versions and data |
| AcceptanceRules.UncommittedFault | include/blockchain/transaction_normal.h:301-406 | the error of a rejected transaction is that of the first condition that fails, in this order |
| AcceptanceRules.UserFault | include/blockchain/transaction_stake.h:54-140 | the same for the committed forms |
| Lmdb.SetRange | src/database/db_lmdb.cpp:997-1024 | a range lookup finds the first key at or after the given one in byte order, and fails exactly when there is none |
| Lmdb.Count | src/database/db_lmdb.cpp:416-434 | the cursor walk counts the keys of the table |
| Environments.Environment.Pages | src/database/db_lmdb.cpp:258-263 | pages are rounded up by less than one page |
| Environments.Environment.Growth | src/database/db_lmdb.cpp:71-105 | one expansion adds at least the growth factor in MiB and less than a page more |
| Environments.Environment.Expand | src/database/db_lmdb.cpp:83-111 | expansion is refused, with nothing done, exactly while some writer is live, and otherwise grows the map by that much |
| Environments.Transaction.constructor | src/database/db_lmdb.cpp:888-914 | a new write transaction joins the live ones that are counted, and sees a copy of the store |
| Environments.Transaction.Put | src/database/db_lmdb.cpp:834-843 | a successful put extends the copy, a failed one leaves it |
| Environments.Transaction.Del | src/database/db_lmdb.cpp:735-742 | a successful deletion shrinks the copy, a missing key is an error |
| Environments.Transaction.Abort | src/database/db_lmdb.cpp:695-707 | abort drops the copy and the count, once |
| Environments.Transaction.Commit | src/database/db_lmdb.cpp:709-723 | commit publishes the copy or nothing, and the transaction is no longer counted either way |
| Environments.ResizeOne | src/database/db_lmdb.cpp:83-90 | among any transactions of an environment, a live one is what refuses an expansion |
| Environments.RunWriters | src/database/db_lmdb.cpp:344-369 | over every schedule of begins, aborts, commits and expansions the open counter is the number of live write transactions |
| Retry.PerformSucceedsIff | src/database/db_lmdb.cpp:834-843 | operations all succeed exactly when every answer does and no entry is missing |
| Retry.AttemptSucceedsIff | src/core/blockchain_storage.cpp:523-599 | an attempt is all or nothing, and succeeds exactly when every answer does and nothing is missing |
| Retry.AttemptFullIff | src/core/blockchain_storage.cpp:523-599 | an attempt ends as full exactly when its first answer that is not success says so |
| Retry.TurnsAgainIff | src/database/db_lmdb.h:25-36 | the loop starts over if and only if no other writer is live, the first failing answer says full and the resize succeeds |
| Retry.LoopIs | src/core/blockchain_storage.cpp:523-599 | the exact number of rounds: the loop is still running if and only if every attempt so far started over, and returns from the first that does not |
| Retry.LoopEndsIff | src/database/db_lmdb.h:25-36 | the loop ends if and only if at some turn another writer is live, or the first failing answer is not full, or the resize fails |
| Retry.LoopLeaves | src/core/blockchain_storage.cpp:523-599 | all or nothing over any number of rounds, each of which has grown the map by the same amount |
| Retry.BenignLoop | src/database/db_lmdb.h:25-36 | where only "full" interferes, a loop that returns has done its work or names the missing entry |
| Retry.OthersBlockRetries | src/database/db_lmdb.cpp:83-90 | while another writer is live the first full answer is the result, and the map is not resized |
| Retry.EnoughRoomEnds | src/database/db_lmdb.cpp:71-111 | where a large enough map is never reported full, the rounds are bounded and the loop ends |
| Retry.SizeDecidesEnd | src/database/db_lmdb.h:25-36 | where the map size alone decides the answers, the loop ends if and only if some size it comes to is not reported full |
| Retry.TransactionFullForEver | src/database/db_lmdb.h:25-36 | a transaction reported too large at every size is retried for ever, and every round grows the map |
| Retry.GrowsUntilEnough | src/database/db_lmdb.h:25-36 | a map that answers LMDB_MAP_FULL or LMDB_TXN_FULL below some size and success from it on is grown until it has that size and not once more, then the work is done or a missing entry named; still retrying exactly if the last attempt was on too small a map |
| Retry.OtherErrorReturned | src/database/db_lmdb.h:25-36 | a first failing answer that is neither of the two is returned at once, in round 0, with store and map as they were |
| Tables.RewindInSteps | src/core/blockchain_storage.cpp:761-781 | a rewind may stop anywhere and go on from there |
| ChainStorage.BlockchainStorage.PutTransaction | src/core/blockchain_storage.cpp:611-742 | one transaction adds its entry, its key images and its outputs, in this order |
| ChainStorage.BlockchainStorage.WriteBlock | src/core/blockchain_storage.cpp:529-598 | the writes of a block and the commit are exactly one attempt at its list of operations |
| ChainStorage.BlockchainStorage.CheckExpand | src/database/db_lmdb.h:25-36 | a full result closes the transaction and grows the map unless another writer is live; any other changes nothing |
| ChainStorage.BlockchainStorage.TryPut | src/core/blockchain_storage.cpp:523-599 | one pass through the loop body is exactly one turn of the value-level loop |
| ChainStorage.BlockchainStorage.PutBlock | src/core/blockchain_storage.cpp:477-600 | result, rounds, store, map and calls are exactly those of the value-level loop; all or nothing for every pattern of failures; success where only a full map interferes; afterwards each output of the block reads back with its transaction's unlock block and each key image is spent, over any store |
| ChainStorage.BlockchainStorage.GetBlock | src/core/blockchain_storage.cpp:206-234 | the reading loop returns what the store holds under the hash |
| ChainStorage.BlockchainStorage.GetBlockAt | src/core/blockchain_storage.cpp:236-248 | the same by index |
| ChainStorage.BlockchainStorage.DelTransaction | src/core/blockchain_storage.cpp:130-195 | one transaction's key images, outputs and entry are deleted, or a missing one is reported |
| ChainStorage.BlockchainStorage.EraseBlock | src/core/blockchain_storage.cpp:63-117 | the deletions of a block and the commit are exactly one attempt at its list of operations |
| ChainStorage.BlockchainStorage.DelBlock | src/core/blockchain_storage.cpp:48-119 | result, rounds, store, map and calls are exactly those of the value-level loop, with the outcome of the undisturbed deletion where only a full map interferes; afterwards exactly the entries of the block and its listed transactions are gone from each table |
| ChainStorage.BlockchainStorage.RewindFrom | src/core/blockchain_storage.cpp:768-778 | the loop deletes whole blocks, each atomically; whatever stops it, some whole number of them is gone; where only a full map interferes its error is that of the undisturbed rewind |
| ChainStorage.BlockchainStorage.Rewind | src/core/blockchain_storage.cpp:761-781 | the operation as shipped, from the block count: result, store and error as above, and nothing changed when the target or the first block is missing |
| ChainStorage.BlockchainStorage.RewindFromTip | src/core/blockchain_storage.cpp:761-781 | the operation as intended, from the tip: result, store and error as above |
| ChainRuns.RewindShipped | src/core/blockchain_storage.cpp:761-781 | on a chain numbered from 0 the shipped rewind reports a missing block and changes nothing, under any answers |
| ChainRuns.PerformCall | src/core/blockchain_storage.cpp:477-781 | one put or rewind on the storage object, under any answers, leaves the replay of a good history, the intended one on success |
| ChainRuns.RunCalls | src/core/blockchain_storage.cpp:477-781 | so does any number of calls chosen in view of the store, each of which may succeed, fail or still be retrying; afterwards the tables agree and nothing is spent or stored twice |
| ChainRuns.PutNeverEnds | src/core/blockchain_storage.cpp:523-599 | a put reported too large at every size is still retrying after any number of rounds, and the map has grown each time |
| ChainRuns.PutUntilRoom | src/core/blockchain_storage.cpp:523-599 | a put on a map that is full, of either kind, below some size succeeds after the least number of expansions that reaches it, and is still retrying exactly with too little patience for that |
| ChainRuns.DelUntilRoom | src/core/blockchain_storage.cpp:54-119 | the same for a deletion, which may name a missing entry instead |
| ChainRuns.PutStopsAt | src/core/blockchain_storage.cpp:523-599 | a put returns the first other error at once: no rounds, store and map unchanged, whoever else is writing |
| ChainRuns.DelStopsAt | src/core/blockchain_storage.cpp:54-119 | and so does a deletion |
| ReadBack.CheckPutExact | src/core/blockchain_storage.cpp:479-517 | the order check passes if and only if the transactions are the listed ones in order, where the hash of hashes does not collide, and otherwise tells a wrong number from a wrong list |
| ReadBack.ReadAllIff | src/core/blockchain_storage.cpp:220-231 | transactions are read in order, or the first that cannot be read decides: a missing transaction, unless its bytes do not parse |
| ReadBack.ReadBlockIff | src/core/blockchain_storage.cpp:206-234 | a block is read, with its transactions in order, if and only if it is stored, parses, and all of them are read; only a block that is not stored is reported as missing |
| ReadBack.PutThenGet | src/core/blockchain_storage.cpp:206-248 | after a put the block is read back by hash and by index with exactly its transactions, on every store |
| History.ReplayKeys | src/core/blockchain_storage.cpp:523-593 | the store holds exactly what the blocks of the history own |
| History.StoredReads | src/core/blockchain_storage.cpp:206-248 | every stored block of a history reads back, whatever came after it |
| History.DeleteStored | src/core/blockchain_storage.cpp:48-119 | deleting a stored block succeeds and leaves its reward as a residue |
| History.RewindStrips | src/core/blockchain_storage.cpp:761-781 | a rewind strips exactly the blocks above its target |
| Rewinding.CountStored | src/core/blockchain_storage.cpp:268-271 | the block count is the number of stored blocks |
| Rewinding.IndexStored | src/core/blockchain_storage.cpp:43-46 | an index is present if and only if a stored block has it |
| Rewinding.RewindUndoes | src/core/blockchain_storage.cpp:761-781 | rewinding to a block leaves the store right after that block, plus the rewards of the removed ones |
| Rewinding.RewindUndoesAllButRewards | src/core/blockchain_storage.cpp:220-231 | with staker rewards only the transaction table differs, at the removed rewards' hashes |
| Rewinding.ShippedRewindAlwaysFails | src/core/blockchain_storage.cpp:768-770 | on a chain numbered from 0 the shipped loop fails at its first step |
| Rewinding.ShippedRewindIff | src/core/blockchain_storage.cpp:768-770 | the shipped loop does what is intended if and only if the chain is numbered from 1, or from later with the target at the tip |
| Ledger.HeadersAgree | src/core/blockchain_storage.cpp:554-593 | blocks, indexes and timestamps hold exactly what the stored blocks put there |
| Ledger.KeyImagesAgree | src/core/blockchain_storage.cpp:649-661 | stored key images are the union over the stored transactions |
| PaidOutputs.PutOutputs | src/core/blockchain_storage.cpp:672-742 | after a put over any store an output reads back, with an unlock block, exactly as the last of the block's user, genesis and refund transactions that pays its hash paid it, and as before where none does |
| PaidOutputs.OutputsAgree | src/core/blockchain_storage.cpp:672-742 | in any history an output reads back, with an unlock block, if and only if the last transaction to pay its hash paid it so, rewards of removed blocks included; under every other key nothing is stored |
| Ledger.MemberOutputsRead | src/core/blockchain_storage.cpp:684-726 | every output of every stored transaction reads back under its hash with that transaction's unlock block, and every key image of a user transaction is spent |
| Ledger.PutDeposits | src/core/blockchain_storage.cpp:649-742 | what a put over any store makes of the output and key image tables |
| Ledger.DeletionWithdraws | src/core/blockchain_storage.cpp:48-204 | a deletion removes from each table exactly the entries of the block and its listed transactions, and changes no other |
| Ledger.NoDoubleSpend | src/core/transaction_validator.cpp:251-272 | a stored key image belongs to one position of one transaction of one block, and no transaction is stored twice |
| Runs.PutKeepsGood | src/core/blockchain_storage.cpp:477-600 | putting a validated block keeps the history free of collisions |
| Runs.StripKeepsGood | src/core/blockchain_storage.cpp:761-781 | so does a rewind, which succeeds |
| Runs.RunsStayGood | src/core/blockchain_storage.cpp:477-781 | in every run the tables are the replay of a collision-free history |
| Runs.EveryReachableState | src/core/transaction_validator.cpp:251-272 | in every state reached from the empty store nothing is spent twice and no transaction is stored twice |
| Runs.FirstBlockAdmissible | src/core/blockchain_storage.cpp:477-600 | a run may start with any well-formed block of index 0 without further transactions |
| Witness.SpendingRun | src/core/transaction_validator.cpp:251-272 | a concrete run of a block, a second one with a validated spending transaction, and a rewind: the key image is spent after the second put, free again after the rewind, and the second block gone |
| Witness.RestlessRuns | src/core/blockchain_storage.cpp:477-781 | a concrete way to choose calls for ever that is allowed whatever fails: put the missing blocks, then rewind, and again |
| Witness.SecondLost | src/core/blockchain_storage.cpp:206-234 | as shipped, that second block passes the order check, is put, and never comes back |
| Runs.GoodTablesAgree | src/core/blockchain_storage.cpp:540-593 | in the store of any good history indexes and timestamps point exactly at the blocks that read back with them, and the indexes are those below the count |
| Runs.GoodImagesAgree | src/core/blockchain_storage.cpp:446-465 | and a key image is spent exactly when a block that reads back spends it |
| Runs.RewardOutputsRead | src/core/blockchain_storage.cpp:699-712 | in the store of any good history every output of a genesis reward reads back with its unlock block, even after its block was removed |
| Runs.GoodSpentOnce | src/core/transaction_validator.cpp:251-272 | and transactions read back from different places share neither a key image nor their hash |
| Runs.ReachableStoreSound | src/core/blockchain_storage.cpp:477-781 | all three hold in every store reached from the empty one |
| Runs.RewindRestores | src/core/blockchain_storage.cpp:761-781 | after any run and any further puts, rewinding succeeds and restores every entry that no removed reward owns |
| Layouts.TransactionShortest | src/core/blockchain_storage.cpp:348-384 | the encoding of a transaction is the shortest byte string that reads as it |
| Layouts.WrittenTransactionReadsBackIff | src/core/blockchain_storage.cpp:633-637 | a transaction as the writer lays it out reads back if and only if it commutes with the block hash |
| Layouts.WrittenOutputReadsBackIff | src/core/blockchain_storage.cpp:752-756 | an output as the writer lays it out reads back if and only if it commutes with the unlock block |
| Layouts.SmallUnlockIff | src/core/blockchain_storage.cpp:752-756 | an output with a one-byte unlock block, as written, reads back if and only if it repeats that byte throughout |
| Layouts.WrittenFreeOutputLost | src/core/blockchain_storage.cpp:752-756 | no output that passes its check and is free from the start reads back as written |
| Layouts.WrittenRewardReadsBackIff | src/core/blockchain_storage.cpp:633-637 | the default reward, as written, reads back under one block hash only |
| ShippedPut.ShippedPutThenGetIff | src/core/blockchain_storage.cpp:206-234 | as shipped, a put block comes back if and only if each listed transaction survives the mismatch; always when there is none |
| ShippedPut.SurvivesIff | src/core/blockchain_storage.cpp:359-364 | a transaction survives if and only if its encoding is the block hash over and over, counted from the end |
| ShippedPut.SurvivingUser | src/core/blockchain_storage.cpp:359-364 | a user transaction that survives has the block hash as both of its suffix hashes |
| ShippedPut.UserTransactionLost | src/core/blockchain_storage.cpp:206-234 | a block that lists a user transaction with different suffix hashes never comes back, whatever its hash |
| ShippedPut.ShippedOutputsNeverDrawn | src/core/blockchain_storage.cpp:299-346 | as shipped, where output hashes do not collide, no acceptable output that is free from the start is ever drawn |
| ShippedPut.ShippedPutKeepsFree | src/core/blockchain_storage.cpp:744-759 | shipped puts of transactions with such outputs keep every store one of these |
| Lookups.ReachableShaped | src/core/blockchain_storage.cpp:744-759 | in every reachable state outputs and timestamps are stored in the shape the lookups read |
| Lookups.GetBlockByTimestamp | src/core/blockchain_storage.cpp:250-266 | returns the least stored timestamp from the given one on, with its block hash, and fails exactly when there is none |
| Lookups.GetOutputs | src/core/blockchain_storage.cpp:405-423 | the loop reads the outputs in order or reports the first error |
| Lookups.GetRandomOutputs | src/core/blockchain_storage.cpp:299-346 | for every list of draws: refused exactly when too few outputs are stored; otherwise exactly the requested number of distinct eligible outputs, increasing by hash, or too little has been drawn |
| Lookups.SelectionPossibleIff | src/core/blockchain_storage.cpp:304-343 | some draws complete a request if and only if enough eligible outputs are stored |
| Lookups.SelectedRingUsable | src/core/transaction_validator.cpp:199-224 | selected outputs form a ring that the validation finds, unlocked, in the same order |
| Lookups.KeyImageExists | src/core/blockchain_storage.cpp:446-465 | the loop finds out whether any key image is spent |
| Lookups.ValidateUncommitted | src/core/transaction_validator.cpp:162-249 | accepts exactly the transactions that satisfy all the conditions on their fields, whose range proof verifies, whose key images are unspent, and whose ring members are stored, not turned away by the lock test, and verify every signature; reports the first failing test of the store |
| Lookups.ValidIff | src/core/transaction_validator.cpp:162-249 | validity of an uncommitted transaction in its fields and the entries of the store: every signature is over its key image, the digest, and the ephemeral keys and commitments of all ring members in order |
| Lookups.StorageVerdictIs | src/core/transaction_validator.cpp:186-224 | the error of the store: a spent key image first, then the first ring member that cannot be read, then a member turned away by the lock test |
| Lookups.UserValidIff | src/core/transaction_validator.cpp:251-272 | a committed user transaction validates if and only if its fields satisfy the conditions and none of its key images is spent |
| Lookups.ValidityCarriesOver | src/core/transaction_validator.cpp:251-272 | a valid uncommitted transaction is valid once committed exactly if its acceptance carries over, as it does for the normal tag |
| Locks.LockVerdictIff | src/core/transaction_validator.cpp:199-224 | the verdict is the intended one if and only if the transaction fails otherwise, or its ring has earlier members exactly if it has later ones |
| Locks.OneMemberIff | src/core/transaction_validator.cpp:218-222 | for a ring of one output the verdict is the intended one exactly at the block it unlocks |
| Locks.FreeOutputRefused | src/core/transaction_validator.cpp:218-222 | an output free since before the block makes every transaction with it invalid, as locked |
| Locks.LockedOutputsAccepted | src/core/transaction_validator.cpp:218-222 | outputs locked beyond the block, however far, are accepted |
| Locks.SelectionIntendedIff | src/core/blockchain_storage.cpp:332-335 | the selection draws from the outputs it should if and only if all of them unlock at this very block |
| Locks.FreeOutputNeverDrawn | src/core/blockchain_storage.cpp:332-335 | an output free since before the block is never drawn |
| Locks.NeverCompleted | src/core/blockchain_storage.cpp:304-343 | on the chain of one genesis block a request for one output is not refused, and no draws complete it |
| Locks.AskForOne | src/core/blockchain_storage.cpp:299-346 | that request, made, is still drawing after any draws |
| PeerDatabase.PruneExactIff | src/p2p/peer_database.cpp:181-204 | pruning keeps exactly the peers of the last day if and only if the clock is at least a day old |
| PeerDatabase.RunsStayKeyed | src/p2p/peer_database.cpp:56-75 | in every run entries sit under their own ids and our own id never enters |
| PeerDatabase.EntriesVouched | src/p2p/peer_database.cpp:56-75 | every entry goes back to an addition or a touch at a moment when it was recent, and nothing removed it since |
| PeerDatabase.PeerDB.Add | src/p2p/peer_database.cpp:56-75 | stores the entry under its id, or refuses it and changes nothing, exactly for ourselves and the long unseen |
| PeerDatabase.PeerDB.Touch | src/p2p/peer_database.cpp:206-218 | sets a known peer's last-seen time to now and changes nobody else; fails on the first day of the clock |
| PeerDatabase.PeerDB.Peers | src/p2p/peer_database.cpp:144-179 | hands out entries of the network, none twice, all of them or as many as asked for |
| PeerDatabase.PeerDB.Prune | src/p2p/peer_database.cpp:181-204 | the deletion loop leaves exactly the filtered table |
| P2pNode.StepKeepsKeyed | src/p2p/p2p_node.cpp:271-284 | handling any message keeps the peer table keyed |
| P2pNode.AnswersAreDiscreet | src/p2p/p2p_node.cpp:84-94 | no answer names the node itself or more than 250 peers |
| P2pNode.Node.BuildPeerList | src/p2p/p2p_node.cpp:84-94 | the advertised list has all peers or exactly 250 of them, none twice |
| P2pNode.LearntFromList | src/p2p/p2p_node.cpp:276-284 | a list of peers leaves its last recent entry for every id but ours and the sender's, and every other id as it was |
| P2pNode.Node.Learn | src/p2p/p2p_node.cpp:270-284 | the sender is known under the address it was seen at and, of those it names, every recent peer as it was last named; nobody else has changed |
| P2pNode.Node.HandleHandshake | src/p2p/p2p_node.cpp:233-296 | a handshake that passes every check is learnt from, answered by a server with one list of peers, and its sender recorded there; one that fails a check changes nothing |
| P2pNode.Node.HandlePeerExchange | src/p2p/p2p_node.cpp:384-437 | an exchange that passes every check is learnt from and answered by a server with one list of peers; one that fails a check changes nothing |
| P2pNode.Node.HandleKeepalive | src/p2p/p2p_node.cpp:341-382 | a known sender's last-seen time becomes now, a server answers once, and nothing else changes |
| P2pNode.Node.HandleData | src/p2p/p2p_node.cpp:298-339 | data is queued exactly if we are no seed, it is for our network, its version is known, and its sender has shaken hands and is not ourselves |
| P2pNode.Node.HandleIncomingMessage | src/p2p/p2p_node.cpp:204-231 | every message takes one step and sends at most one answer |
| P2pNode.Node.Connect | src/p2p/p2p_node.cpp:96-125 | a new connection sends one handshake and is filed once; a duplicate or a failure changes nothing |
| P2pNode.Node.ManageConnections | src/p2p/p2p_node.cpp:127-190 | a round drops what is down and tries exactly the offered peers in turn: peers of our network, or of all in seed mode, as many as are missing or all there are |
| P2pNode.ConnectedToIff | src/p2p/p2p_node.cpp:167-187 | after a round there are the old clients as they were and, for every other key under which an offered peer other than us was reached, the first such peer |
| P2pNode.TargetRespectedIff | src/p2p/p2p_node.cpp:152-187 | a round respects the target for all offers and dialling results if and only if the remaining connections did |
| P2pNode.AboveTargetGrows | src/p2p/p2p_node.cpp:152-154 | above the target the manager goes on opening connections |
| P2pNode.TargetKept | src/p2p/p2p_node.cpp:127-190 | once at or below the target, every later round stays there |
| NetworkRuns.CompletedGrows | src/p2p/p2p_node.cpp:286-295 | the set of completed handshakes only grows |
| NetworkRuns.QueuedAfterHandshake | src/p2p/p2p_node.cpp:298-339 | every queued message is data for our network at a version we talk to, not from ourselves, never in seed mode, and its sender's handshake was accepted earlier |
| NetworkRuns.OneHandshakeAnswer | src/p2p/p2p_node.cpp:239-295 | no sender is answered two handshakes |
| NetworkRuns.RunKeepsKeyed | src/p2p/p2p_node.cpp:204-231 | in every run of messages the peer table stays keyed and free of ourselves |
| NetworkRuns.StepDrains | src/p2p/p2p_node.cpp:204-437 | every handled packet lightens the load of the network |
| NetworkRuns.RunsDrain | src/p2p/p2p_node.cpp:204-437 | a run that only handles packets in flight is no longer than the load it started with |
| NetworkRuns.StuckMeansEmpty | src/p2p/p2p_node.cpp:204-437 | such a run can stop only when nothing is in flight |

## Left out

* LMDB, ZMQ, UPnP, HTTP, logging, the console and the file system themselves; only ordered tables, transactions and
  the "full" answers of LMDB are modelled. Errors of `info()` and `stats()` count as a failed resize.
* The external serializer is not part of this model: its varint is taken to be little-endian base 128, its keys raw
  bytes, its booleans one byte, and ordered containers are taken to compare keys byte by byte.
* Cryptography: `sha3`, `argon2id`, signatures, CLSAG, Bulletproofs+, subgroup and balance checks are functions about
  which only the named assumptions are made. Collisions are excluded only where a theorem says so. The constant
  the serializer compares a missing producer key with is taken to be the default key.
* Rounding of `float` and `double` in the fees and in the page count: exact arithmetic instead.
* Interleaving of threads: every locked section is one step. The singleton `instance` maps and destructors other than
  a transaction's abort are not modelled.
* Bytes of packets and peers on the wire; an unreadable packet is one constructor. Periodic sending of keepalives and
  peer exchanges, and the seed connections of `start`, are outside the runs.
* JSON, printing, base58 addresses, the genesis wallet check in `validate`, `StakingEngine`, and the construction checks
  of reward and refund transactions.
* The uncommitted stake and recall-stake forms; uncommitted acceptance is stated for normal transactions.
* The object form with its loops is modelled for the block, its rewards and its counted lists; the other transaction
  types are encoded and decoded by functions, so updating such an object in place is not captured.
* Normalising a host and port into the key of a client is the argument `clientKey`; whether a client is still connected
  is an argument of each round.
* ChainStorage.BlockchainStorage.PutBlock: the retry macro is applied once per attempt, after the first failing call;
  where the source applies it after each call the first failure already leaves the attempt. The source's loop has no
  `patience`; `Retrying` stands for a loop that is still going after that many attempts, and so it is for `DelBlock`
  and the rewinds.
* Environments.Transaction.constructor: beginning a write transaction always succeeds; the repeated begins, the
  adoption of a map resized by another process and the exception after three failures are not modelled.
* Lookups.ValidateUncommitted: only the normal form of uncommitted transactions.
* PeerDatabase.PeerDB.Add: the write to the database always succeeds; its error is not modelled.
* PeerDatabase.PeerDB.Touch: likewise.
* Lookups.GetRandomOutputs: the stream of random hashes is a finite list; a list that runs out is `StillDrawing`.
* Runs.EveryReachableState: a refund transaction is taken to have a new hash, since nothing validates it.
