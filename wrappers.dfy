/** The optional value used across the model: the selected friend, which
    the source keeps as a record or null, and the result of reading a numeral. */
module Wrappers {

  datatype Option<+T> = None | Some(value: T)
}
