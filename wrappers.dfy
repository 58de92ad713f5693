/// Small helper datatypes shared by the other modules.
module Wrappers {

  /// An optional value (Rust's `Option`).
  datatype Option<T> = None | Some(value: T)

  /// The answer of polling a stream once (Rust's `Poll<Option<T>>`): nothing
  /// yet, the stream has ended, or the next item.
  datatype StreamPoll<T> = Pending | Ended | Item(item: T)
}
