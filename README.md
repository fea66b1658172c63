# Pong state stack and game rules, in Dafny

This project models the core of a small Pong clone. The core has two parts.

- **The state stack.** A `StateManager` keeps a stack of states: main menus and running games, bottom first.
  - Input and updates go from the top down. They stop at the first state whose handler answers `false`.
  - Drawing starts at the highest state that hides the ones below it and goes up to the top.
  - After every draw, states marked as disposed are removed.
  - The menu pushes new games onto its manager.
- **The game.** Two paddles, a ball and a rectangular field.
  - Each frame the paddles move by their controllers' decisions: keyboard or computer player.
  - The ball bounces off the top and bottom walls.
  - At the left and right borders the ball is either reflected by a paddle or scores for the other side and restarts from the centre.
  - The ball's vertical direction is then limited, and the ball flies on at constant speed.

Module layout:

- `Vectors`: vectors, rectangles and arithmetic helpers.
- `Controllers`: the paddle controllers, `PaddleAI` and `PaddleKeyboard`.
- `Helpers`: `normalize`, `multiply`, `keepInBounds`, `reflectBallFromPaddle` and `movePaddle`.
- `Events`: input events and the polled keyboard.
- `GameRules`: a running game as a value (`GameModel`), with the frame step `Step` split into its phases.
- `Lifecycle`: the shared part of `IState`, the `StateBase` class with its disposed flag.
- `GamePlay`: the class `GameState`. Its update changes its fields in place and is proved to compute `Step`.
- `MenuSelection`: what a key press does to the menu, as values.
- `StackOrder`: which states a top-down pass reaches and which survive the clean-up, as functions on sequences. It also holds the clean-up loop exactly as written.
- `StateStack`: the classes `MenuState` and `StateManager`.

Some behaviour of the code is surprising; the model keeps it as written:

- **Up at the first entry.** Up on the first menu entry stays on the first entry. It does not wrap to the last one, because `(selectedEntry - 1) % size` is computed in the unsigned 64-bit size type and 2^64 − 1 is a multiple of 3.
- **The "Exit" entry.** Return on "Exit" starts a game of the computer against itself; it does not close the menu. The `dispose()` for a fourth entry can never be reached.
- **Paddles are not clamped.** The paddles are never kept inside the field.
- **Game input has no answer.** A game's `handleInput` has no return statement. Whether it lets an event through is left open (any boolean).

Inputs from outside the program are parameters:

- The keyboard state polled during an update is a `KeyboardState`.
- The square root is a function `sqrt` that satisfies `IsSquareRoot`.
- Elapsed time is a `real`.

## Model

| member | source | states |
|---|---|---|
| Controllers.AiAct | PaddleAI.cpp:3-25 | definition of the computer player's decision; its properties are AiIdlesWhileBallMovesAway, AiSteersTowardsBall, AiSeesOnlySpeedSign and GameRules.AiMoveApproachesBall |
| Controllers.KeyboardAct | PaddleKeyboard.cpp:9-17 | Down exactly when the down key is held; Up exactly when the up key is held and the down key is not |
| Controllers.AiIdlesWhileBallMovesAway | PaddleAI.cpp:5-15 | the computer player does nothing while the ball moves away from its paddle, on either side |
| Controllers.AiSteersTowardsBall | PaddleAI.cpp:17-24 | otherwise it moves down exactly when the ball is below the paddle centre, up exactly when above, and not at all when level |
| Controllers.AiSeesOnlySpeedSign | PaddleAI.cpp:3-25 | the decision depends on the ball speed only through the sign of its x part, and never on the enemy paddle |
| Helpers.Normalize | helpers.cpp:3-10 | definition of `normalize`, with the square root as a parameter; its properties are NormalizeZero, NormalizeUnit, NormalizeRoundTrip and NormalizeIdempotent |
| Helpers.Multiply | helpers.cpp:12-14 | definition of `multiply`; its properties are MultiplyScales |
| Helpers.NormalizeZero | helpers.cpp:3-10 | the zero vector is returned unchanged, and the result has length zero only for it |
| Helpers.NormalizeUnit | helpers.cpp:3-8 | every non-zero vector is normalised to squared length 1 |
| Helpers.NormalizeRoundTrip | helpers.cpp:3-10 | multiplying the normalised vector by the original length gives back the original vector |
| Helpers.NormalizeIdempotent | helpers.cpp:3-10 | normalising twice is the same as normalising once |
| Helpers.MultiplyScales | helpers.cpp:12-14 | scaling by a then b is scaling by a·b; the squared length grows by a² |
| Helpers.KeepInBounds | helpers.cpp:16-18 | definition of the scalar `keepInBounds` as written; its properties are KeepInBoundsIgnoresObject, KeepInBoundsReversedClamps and KeepInBoundsCounterexample |
| Helpers.KeepInBoundsRect | helpers.cpp:19-24 | definition of the rectangle overload as written; its property is KeepInBoundsRectIsCorner |
| Helpers.KeepInBoundsIgnoresObject | helpers.cpp:16-18 | for min < max the scalar helper as written always returns max, whatever obj is |
| Helpers.KeepInBoundsReversedClamps | helpers.cpp:16-18 | with the bounds swapped (max <= min) the helper as written clamps into [max, min] |
| Helpers.KeepInBoundsCounterexample | helpers.cpp:16-18 | obj 5 in bounds [0, 10] comes out as 10 from the helper as written, and as 5 from Clamp |
| Helpers.KeepInBoundsRectIsCorner | helpers.cpp:19-24 | the rectangle overload returns the bottom-right corner for any rectangle of positive size |
| Helpers.Clamp | helpers.hpp:12-13 | the clamp the helper documents: min <= result <= max, obj itself when inside, and the nearer bound otherwise |
| Helpers.ClampToRect | helpers.cpp:19-24 | the rectangle clamp built on Clamp: the result lies in the rectangle, and a point inside stays where it is |
| Helpers.ReflectBallFromPaddle | helpers.cpp:26-31 | definition of `reflectBallFromPaddle`; its properties are ReflectIsCubicSpin, ReflectAtCentre, ReflectIsOdd, ReflectIsMonotone and ReflectSpinBounded |
| Helpers.ReflectIsCubicSpin | helpers.cpp:26-31 | the reflection negates x and adds the cube of the hit's offset relative to half the paddle height to y |
| Helpers.ReflectAtCentre | helpers.cpp:26-31 | a hit at the paddle centre only reverses the horizontal direction |
| Helpers.ReflectIsOdd | helpers.cpp:26-31 | hits mirrored about the paddle centre deflect by equal amounts in opposite directions |
| Helpers.ReflectIsMonotone | helpers.cpp:26-31 | a lower hit always gives a larger (downward) vertical direction |
| Helpers.ReflectSpinBounded | helpers.cpp:26-31 | a hit within the paddle's span changes the vertical direction by at most 1 |
| Helpers.MovePaddle | helpers.cpp:33-42 | definition of `movePaddle`; its properties are MovePaddleIsVertical and MovePaddleUpDownCancel |
| Helpers.MovePaddleIsVertical | helpers.cpp:33-42 | a paddle keeps its x; it moves by −speed·dt for Up, +speed·dt for Down and 0 for None |
| Helpers.MovePaddleUpDownCancel | helpers.cpp:33-42 | a move up followed by a move down with the same speed and time, or the other way round, returns the paddle to where it was |
| GameRules.Field.GetCenter | GameState.hpp:30-33 | the centre is equally far from the left and right borders, and from the top and bottom borders |
| GameRules.Field.GetSize | GameState.hpp:34-37 | added to the top-left corner, the size gives the bottom-right corner |
| GameRules.FieldFor | GameState.cpp:10-14 | definition of the field bounds computed by the constructor; its property is FieldLayout |
| GameRules.Initial | GameState.cpp:40-51 | definition of a new game's ball and paddle layout; its property is InitialState, and GamePlay.GameState.constructor is proved to produce it |
| GameRules.FieldLayout | GameState.cpp:10-14 | on a screen of positive size the field lies strictly inside the screen, is centred on it and is 7/8 wide and 5/6 high |
| GameRules.InitialState | GameState.cpp:40-51 | a new game has no score, the ball at the screen centre with a direction satisfying the invariant, and both paddles at the borders, vertically centred on the ball |
| GameRules.PaddleBounds | GameState.cpp:47-51 | definition of a paddle shape's global bounds (its position, 20 wide and 120 high), as the controllers are given them; used by ControllerAct and MovePaddles |
| GameRules.ControllerAct | GameState.cpp:16-24 | definition of the controller chosen for each paddle mode (keyboard with W/S on the left and Up/Down on the right, or the computer player) and of its `Act` call at GameState.cpp:60 and :65; its properties are Controllers.KeyboardAct's contract and the AiAct lemmas |
| GameRules.BounceOffWalls | GameState.cpp:72-78 | definition of the top and bottom wall bounce; its property is BounceOutwardOnly |
| GameRules.BounceOutwardOnly | GameState.cpp:72-78 | the wall bounce only flips y, never leaves a ball touching one wall heading into it, and keeps a ball that is not heading outwards unchanged |
| GameRules.LeftSide | GameState.cpp:79-89 | definition of the left paddle collision; its property is LeftSideOutcome |
| GameRules.LeftSideOutcome | GameState.cpp:79-89 | a ball reaching the left border leaves flying right; the right player scores exactly on a miss, and the ball then restarts at the centre with direction (1, 0) |
| GameRules.RightSide | GameState.cpp:90-100 | definition of the right paddle collision; its property is RightSideOutcome |
| GameRules.RightSideOutcome | GameState.cpp:90-100 | the mirror image for the right border |
| GameRules.LimitVertical | GameState.cpp:101 | definition of the fmin/fmax limit on the vertical direction; its property is StepLimitsVertical |
| GameRules.Advance | GameState.cpp:102 | definition of the flight by SPEED_BALL·dt along the normalised direction; its property is StepBallTravel |
| GameRules.MovePaddles | GameState.cpp:56-67 | definition of the paddle phase of a frame; GamePlay.GameState.MovePaddles is proved to compute it, and StepMovesPaddles states its effect |
| GameRules.Bounce | GameState.cpp:72-78 | definition of the wall-bounce phase; its property is BounceOutwardOnly, and GamePlay.GameState.MoveBall is proved to compute it as its first step |
| GameRules.LeftBorder | GameState.cpp:79-89 | definition of the left-border phase with the right player's score; its property is LeftSideOutcome |
| GameRules.RightBorder | GameState.cpp:90-100 | definition of the right-border phase with the left player's score; its property is RightSideOutcome |
| GameRules.Fly | GameState.cpp:101-102 | definition of the limit-and-flight phase; its properties are StepLimitsVertical and StepBallTravel, and GamePlay.GameState.MoveBall is proved to end in it |
| GameRules.Step | GameState.cpp:54-107 | definition of one frame as a value; its properties are StepLimitsVertical, StepKeepsDirectionInvariant, StepScores, StepMovesPaddles and StepBallTravel, and GamePlay.GameState.Update is proved to compute it |
| GameRules.StepLimitsVertical | GameState.cpp:101 | after any frame the vertical direction lies in [−0.7, 0.7] |
| GameRules.StepKeepsDirectionInvariant | GameState.cpp:54-102 | a frame keeps the horizontal direction at ±1 and the vertical one within ±0.7 |
| GameRules.StepScores | GameState.cpp:79-100 | per frame each score stays or grows by exactly one |
| GameRules.StepMovesPaddles | GameState.cpp:56-67 | paddles move only vertically, by 0 or ±SPEED_PADDLE·dt, with no clamping; the shapes follow them; the field and the modes never change |
| GameRules.StepBallTravel | GameState.cpp:101-102 | the ball travels exactly SPEED_BALL·dt per frame, from where it was, or from the centre when someone scored |
| GameRules.AiMoveApproachesBall | PaddleAI.cpp:17-24 | when the computer player moves its paddle by less than twice the distance, the paddle centre gets strictly closer to the ball's height |
| Lifecycle.StateBase.constructor | IState.hpp:13-14 | a state starts with its name and not disposed |
| Lifecycle.StateBase.Dispose | IState.hpp:23-26 | afterwards the state is disposed |
| Lifecycle.StateBase.IsDisposed | IState.hpp:27-29 | definition of the disposed query; used by MenuState.Draw and CleanUpDisposed, and its value is the flag DisposedFlags collects |
| GamePlay.GameState.constructor | GameState.cpp:4-52 | the new game's fields equal Initial for the screen and paddle modes; the invariant holds; its base is new and not disposed |
| GamePlay.GameState.HandleInput | GameState.hpp:71-75 | releasing Escape disposes the game; nothing else changes the disposed flag |
| GamePlay.GameState.Update | GameState.cpp:54-112 | the fields after the update are Step of the fields before; the direction invariant is kept; updates never pass to lower states |
| GamePlay.GameState.MovePaddles | GameState.cpp:56-67 | the paddle phase of the update computes GameRules.MovePaddles in place |
| GamePlay.GameState.MoveBall | GameState.cpp:70-102 | the ball phase computes the wall bounce, the left and then the right border check, and the flight, in place |
| MenuSelection.ToSizeT | MenuState.cpp:45 | the conversion to the unsigned size type is the value modulo 2^64, and is the identity on its range |
| MenuSelection.StepDown | MenuState.cpp:38-42 | definition of Down on the highlight; its properties are DownCycles and UpDownInverse |
| MenuSelection.StepUp | MenuState.cpp:43-47 | definition of Up on the highlight, in the unsigned size type; its properties are UpStopsAtFirstEntry and UpDownInverse |
| MenuSelection.Selection | MenuState.cpp:34-47 | definition of the highlight after a key event; its property is SelectionInRange |
| MenuSelection.Launch | MenuState.cpp:48-63 | definition of the game Return launches; its property is EntryActions |
| MenuSelection.DisposesMenu | MenuState.cpp:35-37 | definition of the events that dispose the menu (Escape, and Return on a fourth entry at MenuState.cpp:60-62); its property is EntryActions |
| MenuSelection.SelectionInRange | MenuState.cpp:38-47 | the highlight stays on one of the three entries; only Up and Down move it |
| MenuSelection.DownCycles | MenuState.cpp:38-42 | Down goes 0 → 1 → 2 → 0 |
| MenuSelection.UpStopsAtFirstEntry | MenuState.cpp:43-47 | Up goes 2 → 1 → 0 and stays at 0 |
| MenuSelection.UpDownInverse | MenuState.cpp:38-47 | Up undoes Down exactly when not on the last entry; Down undoes Up exactly when not on the first entry |
| MenuSelection.EntryActions | MenuState.cpp:35-63 | on the three entries only Escape disposes the menu; Return always launches a game with modes (AI, Keyboard), (Keyboard, Keyboard) or (AI, AI) |
| StackOrder.Highest | StateManager.cpp:61-66 | the highest position whose flag is set, or −1; no flag above it is set |
| StackOrder.Keep | StateManager.cpp:11-18 | the states not flagged, in order: never longer than the stack, and holding only its elements |
| StackOrder.KeepAppend | StateManager.cpp:11-18 | removal distributes over concatenation |
| StackOrder.KeepMembers | StateManager.cpp:11-18 | an element survives exactly when some position holding it is not flagged |
| StackOrder.KeepExtremes | StateManager.cpp:11-18 | nothing flagged keeps the stack as it is; everything flagged leaves it empty |
| StackOrder.EraseLoopAsWritten | StateManager.cpp:11-18 | definition of the clean-up loop exactly as written, with undefined behaviour as an outcome; its properties are EraseLoopAbove, EraseLoopOutcome and EraseLoopCounterexample |
| StackOrder.EraseLoopAbove | StateManager.cpp:11-18 | once the iterator is past the bottom, the loop as written removes exactly the disposed states above it |
| StackOrder.EraseLoopOutcome | StateManager.cpp:11-18 | the loop as written is undefined exactly when the bottom state is disposed, and otherwise removes exactly the disposed states |
| StackOrder.EraseLoopCounterexample | StateManager.cpp:14-15 | one disposed state alone on the stack makes the loop as written undefined, while the intended result is the empty stack |
| StateStack.State.DrawNextState | GameState.hpp:86-89 | definition of drawNextState: false for a game, the default true (IState.hpp:36) for the menu; used by HidesBelow and DrawStart |
| StateStack.StopsUpdates | StateManager.cpp:45-50 | definition of which states answer false to an update; used by StateManager.Update |
| StateStack.HidesBelow | GameState.hpp:86-89 | definition of which states answer false to drawNextState; used by DrawStart and StateManager.LowestDrawableState |
| StateStack.DisposedFlags | IState.hpp:27-29 | definition of the disposed flag of every state, in stack order; used by StateManager.Draw and CleanUpDisposed |
| StateStack.DrawStart | StateManager.cpp:57-66 | drawing starts at the highest state that hides the ones below, or at the bottom; every state above the start lets the ones below show |
| StateStack.EraseKeepsWellFormed | StateManager.cpp:14 | erasing one state keeps the stack well formed and removes just that state's flag |
| StateStack.EraseDisposedKeepsSurvivors | StateManager.cpp:13-15 | erasing a disposed state does not change which states survive the clean-up |
| StateStack.PushGameKeepsWellFormed | StateManager.cpp:25-29 | pushing a new valid game keeps the stack well formed |
| StateStack.MenuState.constructor | MenuState.cpp:8-29 | a new menu highlights the first entry, is not disposed and remembers its manager and screen size |
| StateStack.MenuState.HandleInput | MenuState.cpp:31-69 | Up and Down move the highlight as Selection does; Escape disposes the menu; Return pushes exactly one new game with Initial fields for the entry's modes on top of the unchanged stack; the event never passes on |
| StateStack.MenuState.Update | MenuState.cpp:71-75 | the menu always lets updates through |
| StateStack.MenuState.Draw | MenuState.cpp:77-83 | a live menu draws its three entries; a disposed one draws nothing |
| StateStack.StateManager.constructor | StateManager.cpp:4-8 | the manager starts with an empty, well-formed stack |
| StateStack.StateManager.NoStatesLeft | StateManager.cpp:21-23 | true exactly when the stack is empty |
| StateStack.StateManager.Push | StateManager.cpp:25-29 | the state is added on top of the unchanged stack |
| StateStack.StateManager.OfferToGame | StateManager.cpp:37-38 | a game offered the event reacts only to releasing Escape; the stack stays well formed |
| StateStack.StateManager.OfferToGames | StateManager.cpp:34-39 | the top-down pass through games: the states reached are games whose flag follows Escape; the pass stops at a game that does not pass the event on or at a menu; states below are untouched |
| StateStack.StateManager.OfferToMenu | StateManager.cpp:37-38 | the menu reached reacts as MenuState.HandleInput does; a game it launches goes on top; the stack stays well formed |
| StateStack.StateManager.HandleInput | StateManager.cpp:32-41 | the event reaches games from the top down and at most one menu; states below the lowest one reached are untouched; the stack grows only by a game the menu launched; the result is false |
| StateStack.StateManager.Update | StateManager.cpp:43-53 | the pass goes down while states answer true, so exactly the highest game takes one Step; every other state and the stack are unchanged; the result is false |
| StateStack.StateManager.UpdateAt | StateManager.cpp:48-49 | the state at one position updates itself; the answer lets the pass go on exactly for a menu; a game takes one Step; the other states are unchanged and the stack stays well formed |
| StateStack.StateManager.LowestDrawableState | StateManager.cpp:57-66 | the scan from the top finds DrawStart of the stack |
| StateStack.StateManager.DrawFrom | StateManager.cpp:67-72 | the states from the start to the top are drawn in stack order |
| StateStack.StateManager.Draw | StateManager.cpp:54-75 | it draws the states from DrawStart upwards, then leaves exactly the states that were not disposed, in order |
| StateStack.StateManager.CleanUpDisposed | StateManager.cpp:11-18 | the corrected clean-up removes exactly the disposed states and keeps the order of the rest and a well-formed stack |

## Left out

- Rendering is not modelled: shapes, fonts, text, colours, the score text, the menu's text layout and its blinking highlight (the `alpha` animation). A draw is modelled by the list of states or menu labels drawn.
- StateStack.StateManager.DrawFrom: lists the states drawn, in order, but does not call each state's own draw; so the manager's draw is not connected to `MenuState.Draw` drawing nothing once the menu is disposed.
- Console output (`print` and the logging in the manager) is not modelled.
- `StateManager::pop` is declared but never defined, so there is nothing to model.
- The destructor of `IState` and the ownership and freeing of states by `unique_ptr` and `shared_ptr` are not modelled. A removed state simply leaves the sequence.
- The manager is itself an `IState` in the source (named "StateManager"). It is never pushed onto a stack, so the model gives it no disposed flag or name.
- The main loop, the window and the font loading in `main.cpp` are not part of this model.
- Floating-point rounding is not modelled: coordinates are reals, and `sqrt` is a parameter that is exactly a square root.
- Scores are unbounded integers; `int` overflow after 2^31 − 1 points is not modelled.
- Window events other than key presses and releases carry no data in the model.
- GamePlay.GameState.HandleInput: leaves the returned boolean unconstrained, because the source function has no return statement (undefined behaviour). The manager treats it as either answer.
- GamePlay.GameState.Update: runs the paddle phase and the ball phase as two methods (`MovePaddles`, `MoveBall`) where the source has one function body. The statements and their order are the same.
- StateStack.StateManager.HandleInput: the source loop over all states is written as a pass over the games at the top (`OfferToGames`) followed by at most one menu (`OfferToMenu`). Since a menu always answers `false`, this reaches the same states in the same order. Iterator invalidation during the loop is not modelled: the states reached are those on the stack before the event, and a pushed game is only appended.
- StateStack.StateManager.Update: a game's update may not push or pop states, so the stack is taken as fixed during the pass. The virtual `update` call on one state is the method `UpdateAt`, whose answer decides whether the loop goes on.

## Findings

| source | as written | input that shows it | evidently intended | confidence | as-written member | corrected member |
|---|---|---|---|---|---|---|
| StateManager.cpp:11-18 | after erasing a disposed state, the iterator returned by `erase` is decremented; when the erased state was the bottom one this steps before `begin()`, which is undefined behaviour | a stack whose bottom state is disposed, e.g. the main menu alone after Escape | remove every disposed state and keep the others in order | not executed | StackOrder.EraseLoopCounterexample | StateStack.StateManager.CleanUpDisposed |
| helpers.cpp:16-18 | `fmax(fmin(obj, min), max)` returns max for every obj whenever min < max | obj 5, min 0, max 10 gives 10 | min <= result <= max, and obj when it lies inside (its header comment) | not executed | Helpers.KeepInBoundsCounterexample | Helpers.Clamp |
