/** The kinds of `std::io::Error` the model distinguishes. */
module Io {
  datatype IoKind = NotFound | InvalidInput | OtherKind
}
