/** The Option datatype used for values the program may not have: an unknown
    media length, a command that is not issued, an input that does not parse. */
module Wrappers {

  datatype Option<+T> = None | Some(value: T)
}
