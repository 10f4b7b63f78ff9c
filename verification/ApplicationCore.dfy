/** What the features of the application share. */
module ApplicationCore {
  import opened Common

  type U64 = n: nat | n <= U64_MAX
  type EffectId = n: nat | 0 < n <= U64_MAX witness 1

  datatype Result<T, E> = Ok(value: T) | Err(error: E)

  datatype Lifecycle = Start | Stop | SessionInvalidated
}
