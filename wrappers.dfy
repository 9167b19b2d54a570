/** Small value wrappers shared by the other modules (std::optional). */
module Wrappers {
  datatype Option<T> = None | Some(value: T)
}
