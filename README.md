# GetIt scene reducer in Dafny

GetIt is a turtle-graphics runtime for teaching programming: a script moves
players ("turtles") around a scene, lowers their pens to draw lines, makes them
speak, and registers handlers for key presses, clicks on a player and the mouse
entering a player. All of that goes through one immutable `State` snapshot and a
reducer, `UpdateCore`, that turns a `Message` and the current state into the next
state and a command. This project models that reducer, the initial state, the
map between scene coordinates (origin at the centre, y up) and surface
coordinates (origin at the top-left corner, y down), and the static holder of
the current state, all taken from `src/GetIt/Game.cs`. It proves what each
message does to the scene.

Files:

- `Models.dfy` (module `Models`): the value types. These are positions, sizes,
  the scene rectangle, pens, players, pen lines, the three kinds of handler
  records, `State` and `Message`.
- `ImmutableLists.dfy` (module `ImmutableLists`): the list operations the
  reducer is built from. LINQ `Select`, `Where` and `Single`, and
  `ImmutableList.Remove`, which deletes the first equal element. Their lemmas
  cover concatenation, idempotence and removal.
- `Game.dfy` (module `GetIt`): `Init`, `UpdateCore` with its local
  `updatePlayer`, and the selection of handlers on a trigger. It also has the
  coordinate functions and the class `Game`, whose `Update` method stores the
  reducer's result.
- `GameProperties.dfy` (modules `GameProperties` and `GameScenario`): one
  lemma per message kind, lemmas that relate messages to each other, and a
  short drawing session checked through the `Game` class.

Modelling choices:

- Coordinates, sizes and pen weights are `real`. A `Guid`, a key code, a
  costume and a user callback are each a plain `nat` identifier.
- A trigger message returns the state unchanged. Its command
  `RunInBackground(callbacks)` lists the callbacks the source schedules on the
  task pool, in the order it would run them.
- `SetPosition` looks its player up with `Single`, which throws unless exactly
  one player has the id. `UpdateCore` therefore requires `Accepts(message,
  state)`. `AcceptsSetPositionIffPresent` shows that in a scene with unique ids
  this means "the player is on the scene". For every per-player message
  except `SetPosition`, an unknown id leaves the scene unchanged
  (`UnknownPlayerIsNoOp`). `SetPosition` throws instead, because `Single` finds
  no player, so the model makes that case a precondition.
- The source of `Rectangle` is not part of this model, so its edges are
  inferred from how src/GetIt/Game.cs:235-246 and :310 use them. `Left` is the
  x of its position and `Bottom` its y; `Right` and `Top` add the width and
  height. A random y is drawn between `Bottom` and `Top`, and the view places
  a player at `Height - (Top - y)` from the bottom edge. For the initial bounds at (-300, -200) of size 600 x 400, the
  scene therefore spans -300..300 by -200..200. The coordinate round trip holds
  whatever `Top` is.
- Unique player ids and a non-negative scene size are invariants that the
  reducer keeps but does not check. `UpdatePreservesWellFormed` proves they
  hold under the two conditions callers must meet: add a player only under a
  fresh id, and never send a negative size.

## Model

| member | source | states |
|---|---|---|
| `GetIt.Init` | src/GetIt/Game.cs:79-91 | the initial scene spans -300..300 by -200..200, which is what resizing to 600 x 400 gives; the mouse is at the origin; there are no players, pen lines or handlers; the state is well formed and the command is none |
| `GetIt.Game.constructor` | src/GetIt/Game.cs:79-91 | opening the scene stores the initial state, which is well formed |
| `GetIt.Game.Update` | src/GetIt/Game.cs:93-98 | the held state becomes the reducer's next state, and that state is returned with the reducer's command; a well-formed state stays well formed under an admissible message |
| `GetIt.UpdateCore` | src/GetIt/Game.cs:100-222 | a trigger leaves the state unchanged, and triggers are the only messages that return a command |
| `GetIt.UpdatePlayer` | src/GetIt/Game.cs:102-109 | keeps the length and order of the player list; entry i becomes `fn` of itself when its id matches and stays as it was otherwise; nothing outside the player list changes |
| `GetIt.KeyDownCallbacks` | src/GetIt/Game.cs:178-185 | a callback is selected exactly when some registered key-down handler for that key carries it |
| `GetIt.ClickCallbacks` | src/GetIt/Game.cs:196-203 | a callback is selected exactly when some click handler for that player carries it |
| `GetIt.MouseEnterCallbacks` | src/GetIt/Game.cs:214-220 | a callback is selected exactly when some mouse-enter handler for that player carries it |
| `GetIt.UpdatePlayerKeepsUniqueIds` | src/GetIt/Game.cs:102-109 | updating players with a function that keeps ids keeps the ids unique |
| `GetIt.UpdatePreservesWellFormed` | src/GetIt/Game.cs:100-222 | every accepted, admissible message keeps player ids unique and the scene size non-negative |
| `GetIt.GetPosition` | src/GetIt/Game.cs:232-237 | the surface's left edge maps to the scene's left edge and its top edge to the scene's top edge |
| `GetIt.GetScreenCoordinateX` | src/GetIt/Game.cs:239-242 | the surface x lies in [0, width] exactly when the scene x lies between the scene's left and right edges |
| `GetIt.GetScreenCoordinateY` | src/GetIt/Game.cs:244-247 | the surface y lies in [0, height] exactly when the scene y lies between the scene's top and bottom edges, so the y axis is flipped |
| `GetIt.GetScreenCoordinate` | src/GetIt/Game.cs:249-254 | `GetPosition` maps the surface point back to the same scene position |
| `ImmutableLists.Select` | src/GetIt/Game.cs:106-108 | the result has the input's length, and entry i is `f` of input entry i |
| `ImmutableLists.Where` | src/GetIt/Game.cs:160 | the result holds exactly the input's elements that satisfy the predicate; it is the whole input when all satisfy it and empty when none does |
| `ImmutableLists.Single` | src/GetIt/Game.cs:124 | given exactly one match, returns an element of the list that satisfies the predicate, and every element that satisfies it equals the result |
| `ImmutableLists.IndexOf` | src/GetIt/Game.cs:175 | the index of the first occurrence: the element is there, and not before it |
| `ImmutableLists.Remove` | src/GetIt/Game.cs:175 | deletes exactly the first occurrence of the element; the list is unchanged when the element is absent |
| `ImmutableLists.RemoveMultiset` | src/GetIt/Game.cs:175 | removal takes away one occurrence, if there is one, and nothing else |
| `ImmutableLists.SelectWhereImage` | src/GetIt/Game.cs:181-183 | every kept element's image is among the selected results, the half of membership that completes the callback selection |
| `ImmutableLists.RemoveAppended` | src/GetIt/Game.cs:170-175 | removing an element just appended to a list that did not contain it gives back the list |
| `ImmutableLists.SelectAppend` | src/GetIt/Game.cs:106-108 | `Select` of a concatenation is the concatenation of the `Select`s |
| `ImmutableLists.WhereAppend` | src/GetIt/Game.cs:160 | `Where` of a concatenation is the concatenation of the `Where`s, so kept elements keep their relative order |
| `ImmutableLists.WhereIdempotent` | src/GetIt/Game.cs:160 | filtering twice by one predicate is filtering once |
| `ImmutableLists.WhereKeepsDistinct` | src/GetIt/Game.cs:160 | a key that is distinct along a list stays distinct along any filtered list |
| `ImmutableLists.WhereSingle` | src/GetIt/Game.cs:124 | when one element matches and no two do, `Where` finds exactly one, so `Single` succeeds |
| `GameProperties.MessagesTouchOnlyTheirPart` | src/GetIt/Game.cs:100-222 | bounds, mouse position, players, pen lines and each registry change only under the messages about them |
| `GameProperties.SetSceneSizeCentresScene` | src/GetIt/Game.cs:111-116 | the new bounds have the given size and run from -w/2 to w/2 and from -h/2 to h/2; nothing else changes |
| `GameProperties.SetMousePositionReplaces` | src/GetIt/Game.cs:117-121 | the mouse position is replaced and nothing else changes |
| `GameProperties.AcceptsSetPositionIffPresent` | src/GetIt/Game.cs:124 | with unique ids, `SetPosition` is accepted if and only if a player with that id is on the scene |
| `GameProperties.SetPositionMovesAndDraws` | src/GetIt/Game.cs:122-132 | the player gets the new position and the others stay as they were; if its pen was on before the move, exactly one line from the old to the new position, with the old pen's weight and colour, is appended; otherwise the lines are unchanged; bounds, mouse and handlers are unchanged |
| `GameProperties.PlayerUpdateChangesOnlyTarget` | src/GetIt/Game.cs:133-152 | direction, speech bubble, pen or size factor is replaced on the players with the id; other players, pen lines and the rest of the scene are unchanged |
| `GameProperties.UnknownPlayerIsNoOp` | src/GetIt/Game.cs:133-162 | turning, speaking, changing pen or size factor, and removing a player that is not on the scene leave the state unchanged |
| `GameProperties.AddPlayerAppends` | src/GetIt/Game.cs:153-157 | the new player comes after all existing ones, which keep their places; nothing else changes |
| `GameProperties.RemovePlayerRemovesId` | src/GetIt/Game.cs:158-162 | no player with the id remains; every other player remains; no player is invented; nothing else changes |
| `GameProperties.RemovePlayerKeepsOrder` | src/GetIt/Game.cs:158-162 | removing from a player list split in two equals removing from each part, so relative order is kept |
| `GameProperties.RemovePlayerIdempotent` | src/GetIt/Game.cs:158-162 | removing the same id twice gives the same state as removing it once |
| `GameProperties.ClearSceneEmptiesPenLines` | src/GetIt/Game.cs:163-167 | the pen lines become empty whatever their number; players, bounds, mouse and handlers are unchanged |
| `GameProperties.PenLinesAppendOnly` | src/GetIt/Game.cs:122-167 | apart from clearing the scene, a message keeps every drawn line in place and unchanged and adds at most one, and only when it moves a player whose pen is on |
| `GameProperties.AddKeyDownHandlerAppends` | src/GetIt/Game.cs:168-172 | the key-down handler is appended at the end of its own registry; the other registries and the rest of the scene are unchanged; the command is none |
| `GameProperties.RemoveKeyDownHandlerFirst` | src/GetIt/Game.cs:173-177 | only the first equal key-down handler is deleted, and nothing when there is none; exactly one occurrence leaves the registry; the other registries and the rest of the scene are unchanged |
| `GameProperties.KeyDownAddThenRemove` | src/GetIt/Game.cs:168-177 | adding a key-down handler that was not registered and then removing it gives back the original state |
| `GameProperties.AddClickPlayerHandlerAppends` | src/GetIt/Game.cs:186-190 | the click handler is appended at the end of its own registry; the other registries and the rest of the scene are unchanged; the command is none |
| `GameProperties.RemoveClickPlayerHandlerFirst` | src/GetIt/Game.cs:191-195 | only the first equal click handler is deleted, and nothing when there is none; exactly one occurrence leaves the registry; the other registries and the rest of the scene are unchanged |
| `GameProperties.ClickPlayerAddThenRemove` | src/GetIt/Game.cs:186-195 | adding a click handler that was not registered and then removing it gives back the original state |
| `GameProperties.AddMouseEnterPlayerHandlerAppends` | src/GetIt/Game.cs:204-208 | the mouse-enter handler is appended at the end of its own registry; the other registries and the rest of the scene are unchanged; the command is none |
| `GameProperties.RemoveMouseEnterPlayerHandlerFirst` | src/GetIt/Game.cs:209-213 | only the first equal mouse-enter handler is deleted, and nothing when there is none; exactly one occurrence leaves the registry; the other registries and the rest of the scene are unchanged |
| `GameProperties.MouseEnterPlayerAddThenRemove` | src/GetIt/Game.cs:204-213 | adding a mouse-enter handler that was not registered and then removing it gives back the original state |
| `GameProperties.TriggerKeyDownSelectsInOrder` | src/GetIt/Game.cs:178-185 | a key press leaves the state unchanged; its selection over a registry split in two is the first part's callbacks followed by the second's, so registry order is kept |
| `GameProperties.TriggerClickSelectsInOrder` | src/GetIt/Game.cs:196-203 | the same for a click on a player |
| `GameProperties.TriggerMouseEnterSelectsInOrder` | src/GetIt/Game.cs:214-220 | the same for the mouse entering a player |
| `GameProperties.SingleKeyDownHandlerSelection` | src/GetIt/Game.cs:178-185 | a one-handler key-down registry selects its callback exactly when the key matches, and nothing otherwise |
| `GameProperties.SingleClickHandlerSelection` | src/GetIt/Game.cs:196-203 | a one-handler click registry selects its callback exactly when the player id matches, and nothing otherwise |
| `GameProperties.SingleMouseEnterHandlerSelection` | src/GetIt/Game.cs:214-220 | a one-handler mouse-enter registry selects its callback exactly when the player id matches, and nothing otherwise |
| `GameProperties.AddThenTriggerKeyDown` | src/GetIt/Game.cs:168-185 | after a key-down handler is added, a key press selects what it selected before, followed by the new callback when its key matches |
| `GameProperties.CoordinateMapIsBijective` | src/GetIt/Game.cs:232-254 | surface to scene to surface is the identity; the scene's left-top corner maps to (0, 0) and its right-bottom corner to (width, height) |
| `GameScenario.DrawAfterPenDown` | src/GetIt/Game.cs:122-147 | through `Game.Update`: a player added at the origin with its pen off moves to (50, 0) without a line; after its pen is turned on, moving to (50, 50) draws exactly one line from (50, 0) with the new pen's weight and colour |

## Left out

- Window and thread plumbing is not modelled: `ShowScene`, the UI thread, the start-up signal, `Proxy` and `Environment.Exit` (src/GetIt/Game.cs:35-77, 436-452).
- Rendering is not modelled: `View`, `GetSceneChildren`, `GetPlayerView`, `GetPlayerInfo` and `Icon` (src/GetIt/Game.cs:224-230, 256-427) only build the Avalonia view of a state.
- The dispatch channel is not modelled: `dispatchSubject`, `Subscribe` and `DispatchMessageAndWaitForUpdate` (src/GetIt/Game.cs:32, 429-434, 454-457). `Game.Update` applies one message at a time. Delivery across threads and the order of concurrent senders are not modelled, and neither is whether a sender waits: `DispatchMessageAndWaitForUpdate` (src/GetIt/Game.cs:454-457) only calls `OnNext`.
- Running the selected callbacks on the task pool (src/GetIt/Game.cs:180, 198, 216) is not modelled. Only which callbacks are selected, and in what order, is modelled; completion order and errors raised by callbacks are not.
- `Sleep`, `ShowSceneAndAddTurtle`, the public `AddPlayer` and the public `ClearScene` (src/GetIt/Game.cs:459-479) are not modelled. They only send the `AddPlayer` or `ClearScene` message modelled in `UpdateCore`, or block the caller.
- Floating point: `double` is `real`, with no rounding, infinities or NaN.
- `Degrees` is modelled as a bare `real`: a direction is stored as given, without normalisation to [0, 360).
- Player costumes are an opaque identifier. `SpeechBubble` carries only its text; no other field of it is visible in the reducer.
- Handlers are removed by value equality on the (key or player id, callback) record. The handler classes are not part of this model. If they compare by reference, two registrations with the same key and callback would count as different handlers in the source.
- src/GetIt/Models/PenExtensions.cs: the hue shift works through floating-point colour conversions in GetIt.Utils, which is not part of this model.
- src/PlayAndLearn/Game.cs: it mutates UI controls directly from observable subscriptions and has no reducer.
