/** The optional value used for a terrain read that may fall outside the table
    and for a character that may or may not be a command key. */
module Wrappers {

  datatype Option<+T> = None | Some(value: T)
}
