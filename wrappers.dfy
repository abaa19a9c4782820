/** The optional value used wherever the source has `std::optional`, `None`
    or an operation that may fail. */
module Wrappers {

  datatype Option<+T> = None | Some(value: T)
}
