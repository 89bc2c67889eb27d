/**
 * The sentinel errors of the session store (internal/store/store.go) as the
 * constructors of one datatype, and the result shapes the store returns.
 */
module StoreErrors {

  datatype StoreError =
    | FailedToStartTransaction
    | FailedToCommitTransaction
    | FailedToGenerateRandomBytes
    | FailedToCreateSession
    | FailedToScanSession
    | SessionExpired
    | FailedToDeleteSession

  /** A Go `(value, error)` pair: `Err` stands for a non-nil error returned with the zero value. */
  datatype Result<+T> = Ok(value: T) | Err(error: StoreError)

  datatype Option<+T> = None | Some(value: T)
}
