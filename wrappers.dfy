/** Python's `None`-or-value, used for every optional result of the bot. */
module Wrappers {

  datatype Option<+T> = None | Some(value: T)
}
