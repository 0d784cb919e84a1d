/** The optional-value type used where the game logic has an absent value
    (`winner: Player?`) or where a finite supply of random draws can run out. */
module Wrappers {

  datatype Option<+T> = None | Some(value: T)

}
