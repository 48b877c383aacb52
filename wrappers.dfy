/**
 * The optional value used wherever the server may produce nothing. Its
 * constructors are always written qualified (`Wrappers.None`), because
 * `None` is also the name of the unlit `Lights` member.
 */
module Wrappers {

  datatype Option<+T> = None | Some(value: T)
}
