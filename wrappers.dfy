/** Option, Result and Outcome values, and the failures the pipeline can raise. */
module Wrappers {

  datatype Option<+T> = None | Some(value: T)

  datatype Result<+R, +E> = Success(value: R) | Failure(error: E)

  /** The outcome of an operation that returns nothing on success. */
  datatype Outcome<+E> = Pass | Fail(error: E)

  /** The exceptions the pipeline raises or lets through.
      MissingKey is the ValueError raised when no API key can be resolved;
      ProviderError carries the model provider's own failure, unchanged;
      StoreError carries a failure of the database (an insert or the ranked search). */
  datatype Error = MissingKey | ProviderError(detail: string) | StoreError(detail: string)

  function Min(a: int, b: int): int { if a <= b then a else b }

  function Max(a: int, b: int): int { if a >= b then a else b }
}
