/**
  The failure the routines surface, and how a failed clean-up is combined with the failure before it.
 */
module LockErrors {
  import opened LockPlan
  import opened Key

  datatype LockErrorKind = Contention | Timeout | LostLease | Transport | Database | WorkFailed | InvalidPlan

  datatype MaybeStep = NoStep | At(step: LockStep)

  /** Anything that can be thrown: a lock error, or a value that is not one (`Foreign`, told apart by `id`). */
  datatype Failure =
    | LockError(kind: LockErrorKind, key: Bytes, step: MaybeStep, cause: Cause)
    | Foreign(id: nat)

  datatype Cause = NoCause | Wraps(wrapped: Failure) | Both(cleanup: Failure, inner: Failure)

  datatype Outcome = Ok(value: int) | Err(error: Failure)

  predicate Retryable(f: Failure) {
    f.LockError? && (f.kind == Contention || f.kind == Timeout)
  }

  function ContentionAt(key: Bytes, step: LockStep): Failure {
    LockError(Contention, key, At(step), NoCause)
  }

  function TimeoutAt(key: Bytes, step: LockStep): Failure {
    LockError(Timeout, key, At(step), NoCause)
  }

  function WorkError(key: Bytes, cause: Failure): Failure {
    LockError(WorkFailed, key, At(Work), Wraps(cause))
  }

  function InvalidPlanError(key: Bytes): Failure {
    LockError(InvalidPlan, key, NoStep, NoCause)
  }

  function DatabaseError(key: Bytes, step: LockStep, cause: Failure): Failure {
    LockError(Database, key, At(step), Wraps(cause))
  }

  function TransportError(key: Bytes, cause: Failure, step: MaybeStep): Failure {
    LockError(Transport, key, step, Wraps(cause))
  }

  /** Fill in the step on a lock error that has none; everything else passes through. */
  function TagStep(f: Failure, step: LockStep): (r: Failure)
    ensures r == f || (f.LockError? && f.step.NoStep? && r == f.(step := At(step)))
    ensures r.LockError? ==> r.step.At?
  {
    if f.LockError? && f.step.NoStep? then f.(step := At(step)) else f
  }

  /** The cleanup failure stays primary; the guarded operation's earlier failure is kept in the cause. */
  function CleanupFailure(key: Bytes, cleanup: Failure, inner: Failure): (r: Failure)
    ensures r.LockError? && r.cause == Both(cleanup, inner)
    ensures cleanup.LockError? ==> r.kind == cleanup.kind && r.step == cleanup.step && r.key == cleanup.key
    ensures cleanup.Foreign? ==> r.kind == Transport && r.step == NoStep && r.key == key
  {
    var normalized := if cleanup.LockError? then cleanup else TransportError(key, cleanup, NoStep);
    LockError(normalized.kind, normalized.key, normalized.step, Both(cleanup, inner))
  }

  /** A cleanup failed after the guarded operation ended with `inner`. */
  function AfterFailedCleanup(key: Bytes, cleanup: Failure, inner: Outcome): Failure {
    if inner.Err? then CleanupFailure(key, cleanup, inner.error) else cleanup
  }
}
