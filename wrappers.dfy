/// Option and Result values shared by every module of the model.
module Wrappers {
  datatype Option<T> = None | Some(value: T)

  /// The outcome of an operation that can fail: a thrown exception or a
  /// panic becomes `Err` carrying its message.
  datatype Result<T> = Ok(value: T) | Err(error: string)
}
