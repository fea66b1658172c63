/**
 * The state stack: the manager keeps the states bottom to top, passes
 * events and updates from the top down until a state stops them, draws from
 * the lowest visible state upwards and then removes disposed states. The
 * main menu lives here too, because it pushes games onto its manager.
 */
module StateStack {
  import opened Vectors
  import opened Helpers
  import opened Events
  import opened GameRules
  import opened MenuSelection
  import opened StackOrder
  import Lifecycle
  import GamePlay

  /** A state on the stack: a running game or the main menu. */
  datatype State = Game(game: GamePlay.GameState) | Menu(menu: MenuState)
  {
    /** The object holding the state's own fields. */
    function Obj(): object
    {
      match this
      case Game(g) => g
      case Menu(m) => m
    }

    /** The shared part with the disposed flag. */
    function Base(): Lifecycle.StateBase
    {
      match this
      case Game(g) => g.base
      case Menu(m) => m.base
    }

    /** A game hides the states below it; the menu, like every state by default, lets them show. */
    predicate DrawNextState()
    {
      !Game?
    }
  }

  /** Every object the states of a stack consist of. */
  ghost function Objects(states: seq<State>): set<object>
  {
    (set j | 0 <= j < |states| :: states[j].Obj()) +
    (set j | 0 <= j < |states| :: states[j].Base() as object)
  }

  /** No two positions share a state object or a base: each state is owned by the stack once. */
  ghost predicate Distinct(states: seq<State>)
  {
    forall a, b :: 0 <= a < b < |states| ==>
      states[a].Obj() != states[b].Obj() && states[a].Base() != states[b].Base()
  }

  /** Which states stop an update pass: a game's update returns false, the menu's true. */
  function StopsUpdates(states: seq<State>): (flags: seq<bool>)
    ensures |flags| == |states|
    ensures forall j :: 0 <= j < |states| ==> (flags[j] <==> states[j].Game?)
  {
    seq(|states|, j requires 0 <= j < |states| => states[j].Game?)
  }

  /** Which states hide the ones below them when drawing. */
  function HidesBelow(states: seq<State>): (flags: seq<bool>)
    ensures |flags| == |states|
    ensures forall j :: 0 <= j < |states| ==> (flags[j] <==> !states[j].DrawNextState())
  {
    seq(|states|, j requires 0 <= j < |states| => !states[j].DrawNextState())
  }

  /** The disposed flag of every state, bottom to top. */
  ghost function DisposedFlags(states: seq<State>): (flags: seq<bool>)
    reads Objects(states)
    ensures |flags| == |states|
    ensures forall j :: 0 <= j < |states| ==> (flags[j] <==> states[j].Base().disposed)
  {
    seq(|states|, j requires 0 <= j < |states| reads Objects(states) => states[j].Base().disposed)
  }

  /**
   * Where drawing starts: at the highest state that hides the ones below it,
   * or at the bottom when none does. Every state above the start lets the
   * ones below show, and a start above the bottom hides the ones below it.
   */
  function DrawStart(states: seq<State>): (start: nat)
    ensures |states| > 0 ==> start < |states|
    ensures |states| == 0 ==> start == 0
    ensures forall j :: start < j < |states| ==> states[j].DrawNextState()
    ensures start > 0 ==> !states[start].DrawNextState()
  {
    var top := Highest(HidesBelow(states));
    if top < 0 then 0 else top
  }

  /** Each state is on the stack once, is itself valid, and every menu belongs to the manager mgr. */
  ghost predicate WellFormed(states: seq<State>, mgr: StateManager)
    reads Objects(states)
  {
    Distinct(states) &&
    forall j :: 0 <= j < |states| ==>
      match states[j]
      case Game(g) => g.Valid()
      case Menu(m) => m.manager == mgr && m.Valid()
  }

  /** Removing the state at i keeps a stack well formed and drops exactly that state's disposed flag. */
  lemma EraseKeepsWellFormed(states: seq<State>, i: nat, mgr: StateManager)
    requires i < |states| && WellFormed(states, mgr)
    ensures WellFormed(states[..i] + states[i + 1..], mgr)
    ensures DisposedFlags(states[..i] + states[i + 1..]) == DisposedFlags(states)[..i] + DisposedFlags(states)[i + 1..]
  {
    EraseKeepsDistinct(states, i);
    var r := states[..i] + states[i + 1..];
    forall j | 0 <= j < |r|
      ensures r[j] == states[if j < i then j else j + 1]
    {
    }
  }

  /** Removing a disposed state does not change which states survive the clean-up. */
  lemma EraseDisposedKeepsSurvivors(states: seq<State>, i: nat)
    requires i < |states| && states[i].Base().disposed
    ensures var r := states[..i] + states[i + 1..];
            Keep(r, DisposedFlags(r)) == Keep(states, DisposedFlags(states))
  {
    var d := DisposedFlags(states);
    var r := states[..i] + states[i + 1..];
    assert DisposedFlags(r) == d[..i] + d[i + 1..];
    KeepAppend(states[..i], states[i..], d[..i], d[i..]);
    KeepAppend(states[..i], states[i + 1..], d[..i], d[i + 1..]);
    assert states[..i] + states[i..] == states;
    assert d[..i] + d[i..] == d;
    assert states[i..][1..] == states[i + 1..] && d[i..][1..] == d[i + 1..];
  }

  /** A new valid game whose objects are not yet on a well-formed stack keeps it well formed on top. */
  lemma PushGameKeepsWellFormed(states: seq<State>, s: State, mgr: StateManager)
    requires WellFormed(states, mgr)
    requires s.Game? && s.game.Valid()
    requires s.Obj() !in Objects(states) && s.Base() !in Objects(states)
    ensures WellFormed(states + [s], mgr)
  {
    var r := states + [s];
    forall a, b | 0 <= a < b < |r|
      ensures r[a].Obj() != r[b].Obj() && r[a].Base() != r[b].Base()
    {
      if b == |states| {
        assert r[a] == states[a];
        assert states[a].Obj() in Objects(states) && states[a].Base() in Objects(states);
      }
    }
  }

  /** The manager is none of the objects its states consist of. */
  lemma ManagerIsNoState(states: seq<State>, mgr: StateManager)
    ensures mgr !in Objects(states)
  {
    forall j | 0 <= j < |states|
      ensures states[j].Obj() != mgr && states[j].Base() as object != mgr
    {
    }
  }

  /** Removing one position from a stack of distinct states leaves them distinct. */
  lemma EraseKeepsDistinct(states: seq<State>, i: nat)
    requires i < |states| && Distinct(states)
    ensures Distinct(states[..i] + states[i + 1..])
  {
    var r := states[..i] + states[i + 1..];
    forall a, b | 0 <= a < b < |r|
      ensures r[a].Obj() != r[b].Obj() && r[a].Base() != r[b].Base()
    {
      var a' := if a < i then a else a + 1;
      var b' := if b < i then b else b + 1;
      assert r[a] == states[a'] && r[b] == states[b'];
    }
  }

  /** The main menu: three entries, one of them highlighted. */
  class MenuState {
    const base: Lifecycle.StateBase
    const manager: StateManager
    const screenSize: Vec
    var selectedEntry: int

    /** The highlight is on one of the entries. */
    ghost predicate Valid()
      reads this
    {
      0 <= selectedEntry < |ENTRIES|
    }

    constructor (manager: StateManager, screenSize: Vec)
      ensures this.manager == manager && this.screenSize == screenSize
      ensures selectedEntry == 0 && Valid()
      ensures fresh(base) && !base.disposed && base.name == "Menu"
    {
      base := new Lifecycle.StateBase("Menu");
      this.manager := manager;
      this.screenSize := screenSize;
      selectedEntry := 0;
    }

    /**
     * Escape disposes the menu, Up and Down move the highlight, Return
     * pushes a new game onto the manager with the highlighted entry's paddle
     * modes. No event ever reaches the states below the menu.
     */
    method HandleInput(e: Event) returns (bubble: bool)
      modifies this, base, manager
      ensures !bubble
      ensures selectedEntry == Selection(old(selectedEntry), e)
      ensures base.disposed == (old(base.disposed) || DisposesMenu(old(selectedEntry), e))
      ensures Launch(old(selectedEntry), e).None? ==> manager.stack == old(manager.stack)
      ensures Launch(old(selectedEntry), e).Some? ==>
                |manager.stack| == |old(manager.stack)| + 1 &&
                manager.stack[..|old(manager.stack)|] == old(manager.stack) &&
                var s := manager.stack[|old(manager.stack)|];
                s.Game? && fresh(s.game) && fresh(s.game.base) &&
                !s.game.base.disposed && s.game.Valid() &&
                s.game.Model() == Initial(screenSize, Launch(old(selectedEntry), e).value.0,
                                          Launch(old(selectedEntry), e).value.1)
    {
      match e {
        case KeyPressed(code) =>
          match code {
            case Escape =>
              base.Dispose();
            case Down =>
              selectedEntry := StepDown(selectedEntry);
            case Up =>
              selectedEntry := StepUp(selectedEntry);
            case Return =>
              if selectedEntry == 0 {
                var g := new GamePlay.GameState(AI, Keyboard, screenSize);
                manager.Push(Game(g));
              } else if selectedEntry == 1 {
                var g := new GamePlay.GameState(Keyboard, Keyboard, screenSize);
                manager.Push(Game(g));
              } else if selectedEntry == 2 {
                var g := new GamePlay.GameState(AI, AI, screenSize);
                manager.Push(Game(g));
              } else if selectedEntry == 3 {
                base.Dispose();
              }
            case _ =>
          }
        case _ =>
      }
      bubble := false;
    }

    /** The menu lets updates through to the states below. */
    method Update(elapsedSeconds: real) returns (bubble: bool)
      ensures bubble
    {
      bubble := true;
    }

    /** The entry texts drawn: all three, or none once the menu is disposed. */
    method Draw() returns (labels: seq<string>)
      ensures base.disposed ==> labels == []
      ensures !base.disposed ==> labels == ENTRIES
    {
      if base.IsDisposed() {
        return [];
      }
      labels := ENTRIES;
    }
  }

  class StateManager {
    /** The states, bottom first. */
    var stack: seq<State>

    ghost predicate Valid()
      reads this, Objects(stack)
    {
      WellFormed(stack, this)
    }

    constructor ()
      ensures stack == [] && Valid()
    {
      stack := [];
    }

    function NoStatesLeft(): (none: bool)
      reads this
      ensures none <==> |stack| == 0
    {
      stack == []
    }

    /** The new state goes on top. */
    method Push(s: State)
      modifies this
      ensures stack == old(stack) + [s]
    {
      stack := stack + [s];
    }

    /** The game at position i handles an event; the stack stays well formed. */
    method OfferToGame(i: nat, e: Event) returns (pass: bool)
      requires Valid() && i < |stack| && stack[i].Game?
      modifies stack[i].game.base
      ensures Valid()
      ensures stack[i].game.base.disposed == (old(stack[i].game.base.disposed) || e == KeyReleased(Escape))
      ensures forall j :: 0 <= j < |stack| ==> unchanged(stack[j].Obj())
      ensures forall j :: 0 <= j < |stack| && j != i ==> unchanged(stack[j].Base())
    {
      var g := stack[i].game;
      pass := g.HandleInput(e);
      forall j | 0 <= j < |stack|
        ensures match stack[j]
                case Game(g') => g'.Valid()
                case Menu(m') => m'.manager == this && m'.Valid()
      {
      }
    }

    /**
     * The top-down pass while it meets games: each game from the top is
     * offered the event, until one does not let it through or the next state
     * is not a game. The states from i upwards were reached; pass tells
     * whether the last of them let the event through.
     */
    method OfferToGames(e: Event) returns (i: nat, pass: bool)
      requires Valid()
      modifies Objects(stack)
      ensures Valid()
      ensures i <= |stack|
      ensures forall j :: i <= j < |stack| ==> stack[j].Game?
      ensures pass ==> i == 0 || stack[i - 1].Menu?
      ensures !pass ==> i < |stack|
      ensures forall j :: 0 <= j < |stack| ==> unchanged(stack[j].Obj())
      ensures forall j :: 0 <= j < i ==> unchanged(stack[j].Base())
      ensures forall j :: i <= j < |stack| ==>
                stack[j].Base().disposed == (old(stack[j].Base().disposed) || e == KeyReleased(Escape))
    {
      i := |stack|;
      pass := true;
      while i > 0 && pass && stack[i - 1].Game?
        invariant 0 <= i <= |stack| && Valid()
        invariant forall j :: i <= j < |stack| ==> stack[j].Game?
        invariant !pass ==> i < |stack|
        invariant forall j :: 0 <= j < |stack| ==> unchanged(stack[j].Obj())
        invariant forall j :: 0 <= j < i ==> unchanged(stack[j].Base())
        invariant forall j :: i <= j < |stack| ==>
                    stack[j].Base().disposed == (old(stack[j].Base().disposed) || e == KeyReleased(Escape))
      {
        i := i - 1;
        pass := OfferToGame(i, e);
      }
    }

    /**
     * The menu at position i handles an event. The states on the stack stay
     * and stay well formed; a game the menu launches goes on top.
     */
    method OfferToMenu(i: nat, e: Event)
      requires Valid() && i < |stack| && stack[i].Menu?
      modifies this, stack[i].menu, stack[i].menu.base
      ensures Valid()
      ensures |old(stack)| <= |stack| <= |old(stack)| + 1 && stack[..|old(stack)|] == old(stack)
      ensures var m := old(stack)[i].menu;
              m.selectedEntry == Selection(old(m.selectedEntry), e) &&
              m.base.disposed == (old(m.base.disposed) || DisposesMenu(old(m.selectedEntry), e)) &&
              (|stack| > |old(stack)| <==> Launch(old(m.selectedEntry), e).Some?) &&
              (|stack| > |old(stack)| ==>
                 stack[|old(stack)|].Game? && fresh(stack[|old(stack)|].game) &&
                 fresh(stack[|old(stack)|].game.base) && !stack[|old(stack)|].game.base.disposed &&
                 stack[|old(stack)|].game.Model() ==
                   Initial(m.screenSize, Launch(old(m.selectedEntry), e).value.0,
                           Launch(old(m.selectedEntry), e).value.1))
    {
      var states := stack;
      var m := stack[i].menu;
      var _ := m.HandleInput(e);
      SelectionInRange(old(m.selectedEntry), e);
      forall j | 0 <= j < |states|
        ensures match states[j]
                case Game(g) => g.Valid()
                case Menu(m') => m'.manager == this && m'.Valid()
      {
        if j != i {
          assert states[j].Obj() != m;
        }
      }
      assert WellFormed(states, this);
      if |stack| > |states| {
        assert stack == states + [stack[|states|]];
        PushGameKeepsWellFormed(states, stack[|states|], this);
      }
    }

    /**
     * Offers the event to the states from the top down until one does not
     * let it through. lowest is the lowest state reached (|stack| for an
     * empty stack). Every state above it is a game that passed the event on,
     * since the menu never does; the states below are untouched; a game
     * reached reacts only to Escape; a menu reached reacts as the menu does,
     * and a game it launches ends up on top.
     */
    method HandleInput(e: Event) returns (bubble: bool, ghost lowest: nat)
      requires Valid()
      modifies this, Objects(stack)
      ensures Valid() && !bubble
      ensures lowest <= |old(stack)| && (lowest == |old(stack)| <==> |old(stack)| == 0)
      ensures forall j :: lowest < j < |old(stack)| ==> old(stack)[j].Game?
      ensures forall j :: 0 <= j < lowest ==> unchanged(old(stack)[j].Obj(), old(stack)[j].Base())
      ensures forall j :: lowest <= j < |old(stack)| && old(stack)[j].Game? ==>
                unchanged(old(stack)[j].game) &&
                old(stack)[j].game.base.disposed == (old(stack[j].Base().disposed) || e == KeyReleased(Escape))
      ensures lowest < |old(stack)| && old(stack)[lowest].Menu? ==>
                var m := old(stack)[lowest].menu;
                m.selectedEntry == Selection(old(m.selectedEntry), e) &&
                m.base.disposed == (old(m.base.disposed) || DisposesMenu(old(m.selectedEntry), e)) &&
                (Launch(old(m.selectedEntry), e).Some? ==>
                   |stack| == |old(stack)| + 1 &&
                   stack[|old(stack)|].Game? && fresh(stack[|old(stack)|].game) &&
                   fresh(stack[|old(stack)|].game.base) && !stack[|old(stack)|].game.base.disposed &&
                   stack[|old(stack)|].game.Model() ==
                     Initial(m.screenSize, Launch(old(m.selectedEntry), e).value.0,
                             Launch(old(m.selectedEntry), e).value.1))
      ensures |stack| > |old(stack)| ==> lowest < |old(stack)| && old(stack)[lowest].Menu? &&
                                          Launch(old(stack[lowest].menu.selectedEntry), e).Some?
      ensures |old(stack)| <= |stack| <= |old(stack)| + 1 && stack[..|old(stack)|] == old(stack)
    {
      ManagerIsNoState(stack, this);
      var i, pass := OfferToGames(e);
      lowest := i;
      if pass && i > 0 {
        // the pass reached a menu, which never lets input through
        lowest := i - 1;
        OfferToMenu(i - 1, e);
      }
      bubble := false;
    }

    /**
     * Updates the states from the top down: menus let the update through,
     * so exactly the highest game (if any) takes one step; nothing else
     * changes and the stack stays as it is.
     */
    method Update(elapsedSeconds: real, keys: KeyboardState, sqrt: real -> real) returns (bubble: bool)
      requires IsSquareRoot(sqrt)
      requires Valid()
      modifies Objects(stack)
      ensures Valid() && !bubble
      ensures stack == old(stack)
      ensures forall j :: 0 <= j < |stack| ==> unchanged(stack[j].Base())
      ensures forall j :: 0 <= j < |stack| && j != Highest(StopsUpdates(stack)) ==> unchanged(stack[j].Obj())
      ensures Highest(StopsUpdates(stack)) >= 0 ==>
                var g := stack[Highest(StopsUpdates(stack))].game;
                g.Model() == Step(old(g.Model()), keys, elapsedSeconds, sqrt)
    {
      var i := |stack|;
      while i > 0
        invariant 0 <= i <= |stack|
        invariant forall j :: i <= j < |stack| ==> stack[j].Menu?
        invariant forall j :: 0 <= j < |stack| ==> unchanged(stack[j].Obj(), stack[j].Base())
        invariant Valid()
      {
        i := i - 1;
        var pass := UpdateAt(i, elapsedSeconds, keys, sqrt);
        if !pass {
          break;
        }
      }
      bubble := false;
    }

    /**
     * The state at position i updates itself and answers whether the update
     * may go on to the state below: a menu lets it through, a game takes
     * one step and stops it.
     */
    method UpdateAt(i: nat, elapsedSeconds: real, keys: KeyboardState, sqrt: real -> real) returns (pass: bool)
      requires IsSquareRoot(sqrt)
      requires Valid() && i < |stack|
      modifies stack[i].Obj()
      ensures Valid()
      ensures pass <==> stack[i].Menu?
      ensures forall j :: 0 <= j < |stack| && (j != i || stack[i].Menu?) ==> unchanged(stack[j].Obj())
      ensures stack[i].Game? ==>
                stack[i].game.Model() == Step(old(stack[i].game.Model()), keys, elapsedSeconds, sqrt)
    {
      match stack[i] {
        case Menu(m) =>
          pass := m.Update(elapsedSeconds);
        case Game(g) =>
          pass := g.Update(elapsedSeconds, keys, sqrt);
      }
      forall j | 0 <= j < |stack|
        ensures match stack[j]
                case Game(g') => g'.Valid()
                case Menu(m') => m'.manager == this && m'.Valid()
      {
      }
    }

    /** The loop that finds where drawing starts, scanning down from the top. */
    method LowestDrawableState() returns (start: nat)
      ensures start == DrawStart(stack)
    {
      start := 0;
      var i := |stack| - 1;
      while i >= 0
        invariant -1 <= i < |stack|
        invariant forall j :: i < j < |stack| ==> stack[j].DrawNextState()
      {
        if !stack[i].DrawNextState() {
          start := i;
          break;
        }
        i := i - 1;
      }
    }

    /** Draws the states from position start to the top, in this order, and lists them. */
    method DrawFrom(start: nat) returns (drawn: seq<State>)
      requires start <= |stack|
      ensures drawn == stack[start..]
    {
      drawn := [];
      var i := start;
      while i < |stack|
        invariant start <= i <= |stack|
        invariant drawn == stack[start..i]
      {
        drawn := drawn + [stack[i]];
        i := i + 1;
      }
    }

    /**
     * Draws the states from the lowest visible one to the top, and then
     * removes the disposed states. drawn lists the states drawn, in order.
     */
    method Draw() returns (drawn: seq<State>)
      requires Valid()
      modifies this
      ensures Valid()
      ensures drawn == old(stack)[DrawStart(old(stack))..]
      ensures stack == Keep(old(stack), old(DisposedFlags(stack)))
    {
      var start := LowestDrawableState();
      drawn := DrawFrom(start);
      assert DisposedFlags(stack) == old(DisposedFlags(stack));
      CleanUpDisposed();
    }

    /**
     * Removes every disposed state, keeping the order of the others. The
     * iterator is only advanced past states that stay.
     */
    method CleanUpDisposed()
      requires Valid()
      modifies this
      ensures Valid()
      ensures stack == Keep(old(stack), old(DisposedFlags(stack)))
    {
      var i := 0;
      while i < |stack|
        invariant 0 <= i <= |stack|
        invariant Valid()
        invariant forall j :: 0 <= j < i ==> !stack[j].Base().disposed
        invariant Keep(stack, DisposedFlags(stack)) == Keep(old(stack), old(DisposedFlags(stack)))
      {
        if stack[i].Base().IsDisposed() {
          EraseKeepsWellFormed(stack, i, this);
          EraseDisposedKeepsSurvivors(stack, i);
          ManagerIsNoState(stack[..i] + stack[i + 1..], this);
          stack := stack[..i] + stack[i + 1..];
        } else {
          i := i + 1;
        }
      }
      KeepExtremes(stack, DisposedFlags(stack));
    }
  }
}
