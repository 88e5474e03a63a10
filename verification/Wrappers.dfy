/** Failure-compatible result types shared by the models. */
module Wrappers {

  datatype Option<+T> = None | Some(value: T) {
    predicate IsFailure() { None? }

    function PropagateFailure<U>(): Option<U>
      requires None?
    {
      None
    }

    function Extract(): T
      requires Some?
    {
      value
    }
  }

  datatype Result<+T, +E> = Success(value: T) | Failure(error: E) {
    predicate IsFailure() { Failure? }

    function PropagateFailure<U>(): Result<U, E>
      requires Failure?
    {
      Failure(error)
    }

    function Extract(): T
      requires Success?
    {
      value
    }
  }

  /** core/src/errors.rs, the errors the modelled calls end in; Panicked is a Rust panic. */
  datatype Error =
    | InvalidDeposit
    | NoncesNotFound
    | InvalidKickoffUtxo
    | InvalidSignature
    | KickoffOutpointsNotFound
    | OperatorFundingUtxoNotFound
    | OperatorFundingUtxoAmountNotEnough
    | KickoffGeneratorTxNotFound
    | KickoffGeneratorTxsTooManyIterations
    | OperatorSlashOrTakeSigNotFound
    | OperatorTakesSigNotFound
    | InvalidWithdrawal
    | AggregationFailed
    | DatabaseError
    | Panicked

  function OrPanic<T>(o: Option<T>): Result<T, Error> {
    if o.Some? then Success(o.value) else Failure(Panicked)
  }
}
