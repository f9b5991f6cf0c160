/** The optional result the parsers return: `None` stands for a rejected input. */
module Wrappers {

  datatype Option<+T> = None | Some(value: T)
}
