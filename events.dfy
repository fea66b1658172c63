/** The window events and keyboard state the states react to. */
module Events {

  /** The keys the game looks at; every other key is Other. */
  datatype Key = Escape | Up | Down | Return | W | S | Other

  /** A discrete input event, consumed once per frame. */
  datatype Event = KeyPressed(code: Key) | KeyReleased(code: Key) | Closed | OtherEvent

  /** The keys held down when the keyboard is polled during an update. */
  datatype KeyboardState = KeyboardState(held: set<Key>)
}
