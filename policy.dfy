/** The error classification both HandleError methods apply after probing the FoxRun
    handle: a FoxPro error, a retry of a transient COM failure, or a rethrow. */
module ErrorPolicy {
  import opened Interop

  datatype Verdict = FoxProError | Retry | Rethrow

  /** The exception types HandleError treats as transient COM failures. */
  predicate IsTransient(kind: ErrorKind)
  {
    kind == ComError || kind == MissingMember || kind == RuntimeBinder || kind == NullReference
  }

  /** The decision of HandleError, given whether the FoxRun handle is still live after
      CheckFoxRun, the retries used so far and the caller's retry budget. */
  function Classify(kind: ErrorKind, foxRunLive: bool, retries: nat, retryCount: int): (v: Verdict)
    ensures v == FoxProError <==> kind == NullReference && foxRunLive
    ensures v == Retry ==> retries < retryCount && IsTransient(kind)
    ensures v == Rethrow ==> retries >= retryCount || !IsTransient(kind)
  {
    if kind == NullReference && foxRunLive then FoxProError
    else if retries < retryCount && IsTransient(kind) then Retry
    else Rethrow
  }

  /** How many times an operation is retried when every attempt fails with an exception of
      `kind` while the FoxRun handle is dead: each retry spends one unit of the budget. */
  function RetriesGranted(kind: ErrorKind, retries: nat, retryCount: int): nat
    decreases retryCount - retries
  {
    if Classify(kind, false, retries, retryCount) == Retry then 1 + RetriesGranted(kind, retries + 1, retryCount)
    else 0
  }

  /** An operation that always fails with a transient error is retried exactly as many times
      as its budget has left and then gives up with a rethrow; any other error is never
      retried. */
  lemma {:induction false} RetryBudgetIsExact(kind: ErrorKind, retries: nat, retryCount: int)
    ensures IsTransient(kind) && retries < retryCount ==> RetriesGranted(kind, retries, retryCount) == retryCount - retries
    ensures !IsTransient(kind) || retries >= retryCount ==> RetriesGranted(kind, retries, retryCount) == 0
    ensures Classify(kind, false, retries + RetriesGranted(kind, retries, retryCount), retryCount) == Rethrow
    decreases retryCount - retries
  {
    if Classify(kind, false, retries, retryCount) == Retry {
      RetryBudgetIsExact(kind, retries + 1, retryCount);
    }
  }
}
