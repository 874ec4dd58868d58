/** The result codes the modelled operations return. */
module Errors {
  datatype ErrorCode =
    | SUCCESS
    // blocks and storage
    | BLOCK_TXN_ORDER
    | BLOCK_TXN_MISMATCH
    | DB_BLOCK_NOT_FOUND
    | DB_TRANSACTION_NOT_FOUND
    | DB_TRANSACTION_OUTPUT_NOT_FOUND
    | UNKNOWN_TRANSACTION_TYPE
    // construction and acceptance of transactions
    | TX_INVALID_VERSION
    | TX_PUBLIC_KEY
    | TX_MISSING_FEE
    | TX_INVALID_INPUT_COUNT
    | TX_INVALID_KEY_IMAGE
    | TX_DUPLICATE_KEY_IMAGE
    | TX_INVALID_OUTPUT_COUNT
    | TX_OUTPUT_PUBLIC_EPHEMERAL
    | TX_OUTPUT_AMOUNT
    | TX_OUTPUT_COMMITMENT
    | TX_OUTPUT_LOCKED
    | TX_EXTRA_TOO_LARGE
    | TX_STAKE_NO_AMOUNT
    | STAKING_CANDIDATE_NOT_FOUND
    | TX_PUBLIC_VIEW_KEY_NOT_FOUND
    | TX_PUBLIC_SPEND_KEY_NOT_FOUND
    | TX_STAKER_ID
    | TX_RECALL_VIEW_SIGNATURE
    | TX_RECALL_SPEND_SIGNATURE
    | TX_INVALID_PSEUDO_COMMITMENT_COUNT
    | TX_COMMITMENTS_DO_NOT_BALANCE
    | TX_INVALID_RANGE_PROOF
    | TX_SIG_SIZE_MISMATCH
    | TX_INVALID_SIGNATURE
    | TX_INVALID_RING_SIGNATURE
    | TX_MINIMUM_POW
    | TX_LOW_FEE
    | TX_KEY_IMAGE_ALREADY_EXISTS
    // peers
    | PEERLIST_ADD_FAILURE
    | P2P_DUPE_CONNECT
    | ZMQ_CONNECT_ERROR
    // the key-value store
    | LMDB_MAP_FULL
    | LMDB_TXN_FULL
    | LMDB_NOTFOUND
    | LMDB_BAD_TXN
    | LMDB_ERROR
    | LMDB_OTHER(code: int)
    /** An exception raised while reading malformed bytes. */
    | READ_EXCEPTION

  type Failure = e: ErrorCode | e != SUCCESS witness LMDB_ERROR
}
