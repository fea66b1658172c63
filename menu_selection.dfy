/**
 * What the main menu does with a key press, as values: the highlighted
 * entry moves, Escape closes the menu, and Return launches a game whose
 * paddle modes depend on the highlighted entry.
 */
module MenuSelection {
  import opened Events
  import opened GameRules

  datatype Option<T> = None | Some(value: T)

  /** The menu's entries, top to bottom. */
  const ENTRIES: seq<string> := ["Singleplayer (Up/Down)", "2 Player (W/S, Up/Down)", "Exit"]

  /** Values of the 64-bit unsigned size type wrap around modulo 2^64. */
  const SIZE_T_MODULUS: int := 0x1_0000_0000_0000_0000

  /** The conversion of a signed integer to the unsigned size type. */
  function ToSizeT(x: int): (r: int)
    ensures 0 <= r < SIZE_T_MODULUS
    ensures (r - x) % SIZE_T_MODULUS == 0
    ensures 0 <= x < SIZE_T_MODULUS ==> r == x
  {
    x % SIZE_T_MODULUS
  }

  /** Down: the next entry, computed in the unsigned size type and wrapping at the end. */
  function StepDown(selected: int): int
  {
    ToSizeT(selected + 1) % |ENTRIES|
  }

  /** Up: the previous entry, computed in the unsigned size type. */
  function StepUp(selected: int): int
  {
    ToSizeT(selected - 1) % |ENTRIES|
  }

  /** The highlighted entry after an event. */
  function Selection(selected: int, e: Event): int
  {
    match e
    case KeyPressed(Down) => StepDown(selected)
    case KeyPressed(Up) => StepUp(selected)
    case _ => selected
  }

  /** Escape disposes the menu, and so would Return on a fourth entry, which the menu does not have. */
  predicate DisposesMenu(selected: int, e: Event)
  {
    e == KeyPressed(Escape) || (e == KeyPressed(Return) && selected == 3)
  }

  /** Return on one of the three entries launches a game with these paddle modes (left, right). */
  function Launch(selected: int, e: Event): Option<(PaddleMode, PaddleMode)>
  {
    if e != KeyPressed(Return) then None
    else if selected == 0 then Some((AI, Keyboard))
    else if selected == 1 then Some((Keyboard, Keyboard))
    else if selected == 2 then Some((AI, AI))
    else None
  }

  /** The highlight never leaves the three entries. */
  lemma SelectionInRange(selected: int, e: Event)
    requires 0 <= selected < |ENTRIES|
    ensures 0 <= Selection(selected, e) < |ENTRIES|
    ensures !(e == KeyPressed(Down) || e == KeyPressed(Up)) ==> Selection(selected, e) == selected
  {
  }

  /** Down walks through the entries and wraps from the last to the first. */
  lemma DownCycles()
    ensures StepDown(0) == 1 && StepDown(1) == 2 && StepDown(2) == 0
  {
  }

  /**
   * Up from the first entry stays on the first entry: minus one converted
   * to the unsigned size type is 2^64 - 1, a multiple of three. Up does not
   * wrap to the last entry.
   */
  lemma UpStopsAtFirstEntry()
    ensures StepUp(0) == 0 && StepUp(1) == 0 && StepUp(2) == 1
  {
    assert ToSizeT(-1) == SIZE_T_MODULUS - 1;
    assert (SIZE_T_MODULUS - 1) % 3 == 0;
  }

  /** Hence Up undoes Down except from the last entry, and Down undoes Up except from the first. */
  lemma UpDownInverse(selected: int)
    requires 0 <= selected < |ENTRIES|
    ensures StepUp(StepDown(selected)) == selected <==> selected != 2
    ensures StepDown(StepUp(selected)) == selected <==> selected != 0
  {
    DownCycles();
    UpStopsAtFirstEntry();
  }

  /**
   * On the three entries only Escape disposes the menu, and Return always
   * launches a game: against the computer, between two players, and for
   * "Exit" a game of the computer against itself.
   */
  lemma EntryActions(selected: int, e: Event)
    requires 0 <= selected < |ENTRIES|
    ensures DisposesMenu(selected, e) <==> e == KeyPressed(Escape)
    ensures Launch(selected, e).Some? <==> e == KeyPressed(Return)
    ensures e == KeyPressed(Return) ==>
              Launch(selected, e).value == [(AI, Keyboard), (Keyboard, Keyboard), (AI, AI)][selected]
  {
  }
}
