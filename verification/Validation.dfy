/**
 Validation of transactions against the store: double spends and ring members.
 */
module Validation {
  import opened Bytes
  import opened Crypto
  import opened Errors
  import opened Lmdb
  import opened Tables
  import opened Acceptance

  /** Some key image of the list is already spent. */
  predicate AnySpent(s: Store, ks: seq<Key>) {
    exists i | 0 <= i < |ks| :: Entry(KEY_IMAGES, ks[i]) in s
  }

  /** `validate` of a committed user transaction. */
  function ValidateUser(p: Primitives, s: Store, tx: ChainTx): ErrorCode
    requires tx.User?
  {
    var e := CheckUser(p, tx);
    if e != SUCCESS then e
    else if AnySpent(s, tx.body.keyImages) then TX_KEY_IMAGE_ALREADY_EXISTS
    else SUCCESS
  }
}
