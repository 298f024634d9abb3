/** The optional value used wherever the game may find nothing: a level
    selection that matches no level, a table probe that hits an empty slot,
    a symbol with no Morse code. */
module Wrappers {

  datatype Option<+T> = None | Some(value: T)
}
