/** The part every state of the stack shares: a name and a disposed flag. */
module Lifecycle {

  /**
   * A state starts alive and is disposed at most once in effect: disposing
   * sets the flag for good, and the manager removes disposed states from its
   * stack after drawing.
   */
  class StateBase {
    var disposed: bool
    const name: string

    constructor (name: string)
      ensures this.name == name && !disposed
    {
      this.name := name;
      disposed := false;
    }

    /** Marks the state for removal; disposing twice changes nothing more. */
    method Dispose()
      modifies this
      ensures disposed
    {
      disposed := true;
    }

    predicate IsDisposed()
      reads this
    {
      disposed
    }
  }
}
