/**
  Values shared by the budget and blob models: optional values, the
  exceptions the model raises as error results, and bytes.
 */
module Common {

  datatype Option<+T> = None | Some(value: T)

  /** The exceptions the modelled operations raise. */
  datatype Error =
    | ValueError              // a classification from another system than the budget's
    | DoesNotExist            // `.get` found no matching row
    | MultipleObjectsReturned // `.get` found more than one matching row
    | NotImplemented          // `value` of the abstract base item

  datatype Result<+T> = Ok(value: T) | Err(error: Error)

  /** A byte, as held in a `bytes` object. */
  newtype byte = x: int | 0 <= x < 256

  type Bytes = seq<byte>

  function Min(a: int, b: int): int
  {
    if a <= b then a else b
  }
}
