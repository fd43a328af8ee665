/** The optional value used wherever the service answers "nothing here":
    an absent session on the debug path, a pattern that does not match at a
    position, a message that does not trigger the final report. */
module Wrappers {

  datatype Option<+T> = None | Some(value: T)
}
