/** What the GetIt reducer promises, message by message, and how the
    messages relate to one another. */
module GameProperties {
  import opened Models
  import opened ImmutableLists
  import opened GetIt

  /** Each part of the scene is changed only by the messages about it. */
  lemma MessagesTouchOnlyTheirPart(message: Message, state: State)
    requires Accepts(message, state)
    ensures var next := UpdateCore(message, state).0;
      && (next.sceneBounds == state.sceneBounds || message.SetSceneSize?)
      && (next.mousePosition == state.mousePosition || message.SetMousePosition?)
      && (next.players == state.players ||
          message.IsPlayerUpdate() || message.AddPlayer? || message.RemovePlayer?)
      && (next.penLines == state.penLines || message.SetPosition? || message.ClearScene?)
      && (next.keyDownHandlers == state.keyDownHandlers ||
          message.AddKeyDownHandler? || message.RemoveKeyDownHandler?)
      && (next.clickPlayerHandlers == state.clickPlayerHandlers ||
          message.AddClickPlayerHandler? || message.RemoveClickPlayerHandler?)
      && (next.mouseEnterPlayerHandlers == state.mouseEnterPlayerHandlers ||
          message.AddMouseEnterPlayerHandler? || message.RemoveMouseEnterPlayerHandler?)
  {
  }

  // ---------------------------------------------------------------------
  // Scene and mouse
  // ---------------------------------------------------------------------

  /** Resizing centres the scene on the origin with the new size and changes
      nothing else. */
  lemma SetSceneSizeCentresScene(state: State, size: Size)
    ensures var r := UpdateCore(SetSceneSize(size), state);
      var bounds := r.0.sceneBounds;
      && bounds.size == size
      && bounds.Left() == -size.width / 2.0 && bounds.Right() == size.width / 2.0
      && bounds.Bottom() == -size.height / 2.0 && bounds.Top() == size.height / 2.0
      && r.0 == state.(sceneBounds := bounds)
      && r.1 == NoCmd
  {
  }

  /** The mouse position is replaced and nothing else changes. */
  lemma SetMousePositionReplaces(state: State, position: Position)
    ensures UpdateCore(SetMousePosition(position), state) == (state.(mousePosition := position), NoCmd)
  {
  }

  // ---------------------------------------------------------------------
  // Players
  // ---------------------------------------------------------------------

  /** In a scene with unique ids, `SetPosition` is accepted exactly when a
      player with that id is on the scene. */
  lemma AcceptsSetPositionIffPresent(state: State, playerId: PlayerId, position: Position)
    requires UniqueIds(state.players)
    ensures Accepts(SetPosition(playerId, position), state) <==>
      exists i :: 0 <= i < |state.players| && state.players[i].id == playerId
  {
    if i :| 0 <= i < |state.players| && state.players[i].id == playerId {
      WhereSingle(state.players, HasId(playerId), i);
    }
  }

  /** Moving a player sets its position and keeps every other player. When
      its pen was on before the move, exactly one line is appended, from the
      old position to the new one, with the old pen's weight and colour;
      otherwise the lines stay as they were. Nothing else changes. */
  lemma SetPositionMovesAndDraws(state: State, playerId: PlayerId, position: Position, k: nat)
    requires Accepts(SetPosition(playerId, position), state)
    requires k < |state.players| && state.players[k].id == playerId
    ensures var r := UpdateCore(SetPosition(playerId, position), state);
      var mover := state.players[k];
      && |r.0.players| == |state.players|
      && r.0.players[k] == mover.(position := position)
      && (forall i :: 0 <= i < |state.players| && state.players[i].id != playerId ==>
            r.0.players[i] == state.players[i])
      && r.0.penLines == (if mover.pen.isOn
                          then state.penLines + [PenLine(mover.position, position, mover.pen.weight, mover.pen.color)]
                          else state.penLines)
      && r.0 == state.(players := r.0.players, penLines := r.0.penLines)
      && r.1 == NoCmd
  {
    assert Single(state.players, HasId(playerId)) == state.players[k];
  }

  /** Turning, speaking, changing the pen or the size factor changes the
      matching field of every player with the id, and nothing else: other
      players, the pen lines and the rest of the scene are left alone. */
  lemma PlayerUpdateChangesOnlyTarget(state: State, message: Message)
    requires message.SetDirection? || message.Say? || message.SetPen? || message.SetSizeFactor?
    ensures var r := UpdateCore(message, state);
      && |r.0.players| == |state.players|
      && (forall i :: 0 <= i < |state.players| ==>
            r.0.players[i] == if state.players[i].id != message.playerId then state.players[i]
              else match message
                case SetDirection(_, angle) => state.players[i].(direction := angle)
                case Say(_, bubble) => state.players[i].(speechBubble := bubble)
                case SetPen(_, pen) => state.players[i].(pen := pen)
                case SetSizeFactor(_, factor) => state.players[i].(sizeFactor := factor))
      && r.0 == state.(players := r.0.players)
      && r.1 == NoCmd
  {
  }

  /** A message about a player that is not on the scene changes nothing
      (`SetPosition` is not among them: it is not accepted then). */
  lemma UnknownPlayerIsNoOp(state: State, message: Message)
    requires message.SetDirection? || message.Say? || message.SetPen? || message.SetSizeFactor? ||
      message.RemovePlayer?
    requires forall i :: 0 <= i < |state.players| ==> state.players[i].id != message.playerId
    ensures UpdateCore(message, state) == (state, NoCmd)
  {
    var players := UpdateCore(message, state).0.players;
    assert players == state.players by {
      if !message.RemovePlayer? {
        assert forall i :: 0 <= i < |players| ==> players[i] == state.players[i];
      }
    }
  }

  /** Adding a player appends it after all the others. */
  lemma AddPlayerAppends(state: State, player: Player)
    ensures var r := UpdateCore(AddPlayer(player), state);
      && r.0.players[..|state.players|] == state.players
      && r.0.players[|state.players|] == player
      && |r.0.players| == |state.players| + 1
      && r.0 == state.(players := r.0.players)
  {
  }

  /** Removing a player by id leaves no player with that id, keeps every
      other player, and changes nothing but the player list. */
  lemma RemovePlayerRemovesId(state: State, playerId: PlayerId)
    ensures var r := UpdateCore(RemovePlayer(playerId), state);
      && (forall i :: 0 <= i < |r.0.players| ==> r.0.players[i].id != playerId)
      && (forall i :: 0 <= i < |state.players| && state.players[i].id != playerId ==>
            state.players[i] in r.0.players)
      && (forall i :: 0 <= i < |r.0.players| ==> r.0.players[i] in state.players)
      && r.0 == state.(players := r.0.players)
      && r.1 == NoCmd
  {
    var r := UpdateCore(RemovePlayer(playerId), state);
    assert forall i :: 0 <= i < |r.0.players| ==> HasOtherId(playerId)(r.0.players[i]);
  }

  /** Removal keeps the remaining players in their original relative order:
      removing from a list split in two is removing from each part. */
  lemma {:induction false} RemovePlayerKeepsOrder(state: State, playerId: PlayerId, front: seq<Player>, back: seq<Player>)
    requires state.players == front + back
    ensures UpdateCore(RemovePlayer(playerId), state).0.players ==
      UpdateCore(RemovePlayer(playerId), state.(players := front)).0.players +
      UpdateCore(RemovePlayer(playerId), state.(players := back)).0.players
  {
    var remove := HasOtherId(playerId);
    assert UpdateCore(RemovePlayer(playerId), state).0.players == Where(front + back, remove);
    assert UpdateCore(RemovePlayer(playerId), state.(players := front)).0.players == Where(front, remove);
    assert UpdateCore(RemovePlayer(playerId), state.(players := back)).0.players == Where(back, remove);
    WhereAppend(front, back, remove);
  }

  /** Removing the same player twice is removing it once. */
  lemma {:induction false} RemovePlayerIdempotent(state: State, playerId: PlayerId)
    ensures var once := UpdateCore(RemovePlayer(playerId), state).0;
      UpdateCore(RemovePlayer(playerId), once).0 == once
  {
    var once := state.(players := Where(state.players, HasOtherId(playerId)));
    assert UpdateCore(RemovePlayer(playerId), state).0 == once;
    assert UpdateCore(RemovePlayer(playerId), once).0 == once.(players := Where(once.players, HasOtherId(playerId)));
    WhereIdempotent(state.players, HasOtherId(playerId));
  }

  // ---------------------------------------------------------------------
  // Pen lines
  // ---------------------------------------------------------------------

  /** Clearing the scene empties the pen lines, whatever their number, and
      keeps players, bounds, mouse position and handlers. */
  lemma ClearSceneEmptiesPenLines(state: State)
    ensures var r := UpdateCore(ClearScene, state);
      && r.0.penLines == []
      && r.0 == state.(penLines := [])
      && r.1 == NoCmd
  {
  }

  /** Pen lines are append-only: apart from `ClearScene`, a message keeps
      every line already drawn, unchanged and in place, and adds at most one
      more at the end, only when a player with its pen on is moved. */
  lemma PenLinesAppendOnly(state: State, message: Message)
    requires Accepts(message, state)
    requires !message.ClearScene?
    ensures var lines := UpdateCore(message, state).0.penLines;
      && |state.penLines| <= |lines| <= |state.penLines| + 1
      && lines[..|state.penLines|] == state.penLines
      && (|lines| == |state.penLines| + 1 ==>
            message.SetPosition? && Single(state.players, HasId(message.playerId)).pen.isOn)
  {
  }

  // ---------------------------------------------------------------------
  // Handler registries
  // ---------------------------------------------------------------------

  /** A key-down handler is added at the end of its own registry; the other
      registries and the rest of the scene are left alone. */
  lemma AddKeyDownHandlerAppends(state: State, handler: KeyDownHandler)
    ensures UpdateCore(AddKeyDownHandler(handler), state) == (state.(keyDownHandlers := state.keyDownHandlers + [handler]), NoCmd)
  {
  }

  /** Removing a key-down handler takes out its first occurrence, or nothing
      when it is absent; the other registries and the rest of the scene are
      left alone. */
  lemma RemoveKeyDownHandlerFirst(state: State, handler: KeyDownHandler)
    ensures var removed := UpdateCore(RemoveKeyDownHandler(handler), state).0;
      var handlers := state.keyDownHandlers;
      && removed == state.(keyDownHandlers := removed.keyDownHandlers)
      && (handler !in handlers ==> removed == state)
      && (handler in handlers ==>
            removed.keyDownHandlers == handlers[..IndexOf(handlers, handler)] + handlers[IndexOf(handlers, handler) + 1..])
      && multiset(removed.keyDownHandlers) == multiset(handlers) - multiset{handler}
  {
    var handlers := state.keyDownHandlers;
    var removed := Remove(handlers, handler);
    assert UpdateCore(RemoveKeyDownHandler(handler), state).0 == state.(keyDownHandlers := removed);
    RemoveMultiset(handlers, handler);
    if handler !in handlers {
      assert removed == handlers;
    }
  }

  /** Adding a key-down handler that was not registered and removing it
      again gives back the scene. */
  lemma KeyDownAddThenRemove(state: State, handler: KeyDownHandler)
    requires handler !in state.keyDownHandlers
    ensures var added := UpdateCore(AddKeyDownHandler(handler), state).0;
      UpdateCore(RemoveKeyDownHandler(handler), added).0 == state
  {
    var added := state.(keyDownHandlers := state.keyDownHandlers + [handler]);
    AddKeyDownHandlerAppends(state, handler);
    assert UpdateCore(RemoveKeyDownHandler(handler), added).0 == added.(keyDownHandlers := Remove(added.keyDownHandlers, handler));
    RemoveAppended(state.keyDownHandlers, handler);
  }

  /** The same for click handlers. */
  lemma AddClickPlayerHandlerAppends(state: State, handler: ClickPlayerHandler)
    ensures UpdateCore(AddClickPlayerHandler(handler), state) == (state.(clickPlayerHandlers := state.clickPlayerHandlers + [handler]), NoCmd)
  {
  }

  /** The same for click handlers. */
  lemma RemoveClickPlayerHandlerFirst(state: State, handler: ClickPlayerHandler)
    ensures var removed := UpdateCore(RemoveClickPlayerHandler(handler), state).0;
      var handlers := state.clickPlayerHandlers;
      && removed == state.(clickPlayerHandlers := removed.clickPlayerHandlers)
      && (handler !in handlers ==> removed == state)
      && (handler in handlers ==>
            removed.clickPlayerHandlers == handlers[..IndexOf(handlers, handler)] + handlers[IndexOf(handlers, handler) + 1..])
      && multiset(removed.clickPlayerHandlers) == multiset(handlers) - multiset{handler}
  {
    var handlers := state.clickPlayerHandlers;
    var removed := Remove(handlers, handler);
    assert UpdateCore(RemoveClickPlayerHandler(handler), state).0 == state.(clickPlayerHandlers := removed);
    RemoveMultiset(handlers, handler);
    if handler !in handlers {
      assert removed == handlers;
    }
  }

  /** The same for click handlers. */
  lemma ClickPlayerAddThenRemove(state: State, handler: ClickPlayerHandler)
    requires handler !in state.clickPlayerHandlers
    ensures var added := UpdateCore(AddClickPlayerHandler(handler), state).0;
      UpdateCore(RemoveClickPlayerHandler(handler), added).0 == state
  {
    var added := state.(clickPlayerHandlers := state.clickPlayerHandlers + [handler]);
    AddClickPlayerHandlerAppends(state, handler);
    assert UpdateCore(RemoveClickPlayerHandler(handler), added).0 == added.(clickPlayerHandlers := Remove(added.clickPlayerHandlers, handler));
    RemoveAppended(state.clickPlayerHandlers, handler);
  }

  /** The same for mouse-enter handlers. */
  lemma AddMouseEnterPlayerHandlerAppends(state: State, handler: MouseEnterPlayerHandler)
    ensures UpdateCore(AddMouseEnterPlayerHandler(handler), state) == (state.(mouseEnterPlayerHandlers := state.mouseEnterPlayerHandlers + [handler]), NoCmd)
  {
  }

  /** The same for mouse-enter handlers. */
  lemma RemoveMouseEnterPlayerHandlerFirst(state: State, handler: MouseEnterPlayerHandler)
    ensures var removed := UpdateCore(RemoveMouseEnterPlayerHandler(handler), state).0;
      var handlers := state.mouseEnterPlayerHandlers;
      && removed == state.(mouseEnterPlayerHandlers := removed.mouseEnterPlayerHandlers)
      && (handler !in handlers ==> removed == state)
      && (handler in handlers ==>
            removed.mouseEnterPlayerHandlers == handlers[..IndexOf(handlers, handler)] + handlers[IndexOf(handlers, handler) + 1..])
      && multiset(removed.mouseEnterPlayerHandlers) == multiset(handlers) - multiset{handler}
  {
    var handlers := state.mouseEnterPlayerHandlers;
    var removed := Remove(handlers, handler);
    assert UpdateCore(RemoveMouseEnterPlayerHandler(handler), state).0 == state.(mouseEnterPlayerHandlers := removed);
    RemoveMultiset(handlers, handler);
    if handler !in handlers {
      assert removed == handlers;
    }
  }

  /** The same for mouse-enter handlers. */
  lemma MouseEnterPlayerAddThenRemove(state: State, handler: MouseEnterPlayerHandler)
    requires handler !in state.mouseEnterPlayerHandlers
    ensures var added := UpdateCore(AddMouseEnterPlayerHandler(handler), state).0;
      UpdateCore(RemoveMouseEnterPlayerHandler(handler), added).0 == state
  {
    var added := state.(mouseEnterPlayerHandlers := state.mouseEnterPlayerHandlers + [handler]);
    AddMouseEnterPlayerHandlerAppends(state, handler);
    assert UpdateCore(RemoveMouseEnterPlayerHandler(handler), added).0 == added.(mouseEnterPlayerHandlers := Remove(added.mouseEnterPlayerHandlers, handler));
    RemoveAppended(state.mouseEnterPlayerHandlers, handler);
  }

  // ---------------------------------------------------------------------
  // Triggers
  // ---------------------------------------------------------------------

  /** A key press leaves the scene alone and selects the callbacks of the
      handlers for that key, in registry order: a registry made of two parts
      yields the first part's callbacks, then the second's. */
  lemma {:induction false} TriggerKeyDownSelectsInOrder(state: State, key: KeyboardKey, front: seq<KeyDownHandler>, back: seq<KeyDownHandler>)
    requires state.keyDownHandlers == front + back
    ensures var r := UpdateCore(TriggerKeyDownEvent(key), state);
      && r.0 == state
      && r.1 == RunInBackground(KeyDownCallbacks(front, key) + KeyDownCallbacks(back, key))
  {
    assert UpdateCore(TriggerKeyDownEvent(key), state) == (state, RunInBackground(KeyDownCallbacks(state.keyDownHandlers, key)));
    WhereAppend(front, back, IsForKey(key));
    SelectAppend(Where(front, IsForKey(key)), Where(back, IsForKey(key)), KeyDownCallback);
  }

  /** The same for clicks on a player. */
  lemma {:induction false} TriggerClickSelectsInOrder(state: State, playerId: PlayerId, front: seq<ClickPlayerHandler>, back: seq<ClickPlayerHandler>)
    requires state.clickPlayerHandlers == front + back
    ensures var r := UpdateCore(TriggerClickPlayerEvent(playerId), state);
      && r.0 == state
      && r.1 == RunInBackground(ClickCallbacks(front, playerId) + ClickCallbacks(back, playerId))
  {
    assert UpdateCore(TriggerClickPlayerEvent(playerId), state) == (state, RunInBackground(ClickCallbacks(state.clickPlayerHandlers, playerId)));
    WhereAppend(front, back, IsForClickOn(playerId));
    SelectAppend(Where(front, IsForClickOn(playerId)), Where(back, IsForClickOn(playerId)), ClickCallback);
  }

  /** The same for the mouse entering a player. */
  lemma {:induction false} TriggerMouseEnterSelectsInOrder(state: State, playerId: PlayerId, front: seq<MouseEnterPlayerHandler>, back: seq<MouseEnterPlayerHandler>)
    requires state.mouseEnterPlayerHandlers == front + back
    ensures var r := UpdateCore(TriggerMouseEnterPlayerEvent(playerId), state);
      && r.0 == state
      && r.1 == RunInBackground(MouseEnterCallbacks(front, playerId) + MouseEnterCallbacks(back, playerId))
  {
    assert UpdateCore(TriggerMouseEnterPlayerEvent(playerId), state) == (state, RunInBackground(MouseEnterCallbacks(state.mouseEnterPlayerHandlers, playerId)));
    WhereAppend(front, back, IsForMouseEnterOn(playerId));
    SelectAppend(Where(front, IsForMouseEnterOn(playerId)), Where(back, IsForMouseEnterOn(playerId)), MouseEnterCallback);
  }

  /** A key-down registry of one handler selects its callback exactly when
      the key matches: with the split above, this pins down the selection. */
  lemma SingleKeyDownHandlerSelection(handler: KeyDownHandler, key: KeyboardKey)
    ensures KeyDownCallbacks([handler], key) == if handler.key == key then [handler.handler] else []
  {
    assert [handler][1..] == [];
  }

  /** A click registry of one handler selects its callback exactly when the
      player id matches. */
  lemma SingleClickHandlerSelection(handler: ClickPlayerHandler, playerId: PlayerId)
    ensures ClickCallbacks([handler], playerId) == if handler.playerId == playerId then [handler.handler] else []
  {
    assert [handler][1..] == [];
  }

  /** A mouse-enter registry of one handler selects its callback exactly when
      the player id matches. */
  lemma SingleMouseEnterHandlerSelection(handler: MouseEnterPlayerHandler, playerId: PlayerId)
    ensures MouseEnterCallbacks([handler], playerId) == if handler.playerId == playerId then [handler.handler] else []
  {
    assert [handler][1..] == [];
  }

  /** A key-down handler added last runs last: triggering its key after
      adding it selects what was selected before, followed by its callback. */
  lemma AddThenTriggerKeyDown(state: State, handler: KeyDownHandler, key: KeyboardKey)
    ensures var added := UpdateCore(AddKeyDownHandler(handler), state).0;
      UpdateCore(TriggerKeyDownEvent(key), added).1 ==
        RunInBackground(KeyDownCallbacks(state.keyDownHandlers, key) +
          (if handler.key == key then [handler.handler] else []))
  {
    var added := UpdateCore(AddKeyDownHandler(handler), state).0;
    TriggerKeyDownSelectsInOrder(added, key, state.keyDownHandlers, [handler]);
    SingleKeyDownHandlerSelection(handler, key);
  }

  // ---------------------------------------------------------------------
  // Coordinates
  // ---------------------------------------------------------------------

  /** Surface to scene and back is the identity too, and the scene's
      left-top and right-bottom corners are the surface's corners. */
  lemma CoordinateMapIsBijective(state: State, point: Point)
    ensures GetScreenCoordinate(state, GetPosition(state, point)) == point
    ensures var bounds := state.sceneBounds;
      && GetScreenCoordinate(state, Position(bounds.Left(), bounds.Top())) == Point(0.0, 0.0)
      && GetScreenCoordinate(state, Position(bounds.Right(), bounds.Bottom())) ==
           Point(bounds.size.width, bounds.size.height)
  {
  }
}

/** A caller's view of the held state: what the contracts of `Game` let one
    conclude about a short drawing session. */
module GameScenario {
  import opened Models
  import opened ImmutableLists
  import opened GetIt
  import opened GameProperties

  /** A player added at the origin with its pen off leaves no trail when
      it moves; once its pen is on, the next move draws exactly one line,
      from where it stood, with the weight and colour of the new pen. */
  method DrawAfterPenDown(player: Player, color: RGBColor)
    returns (firstMove: State, secondMove: State)
    requires player.position == Position(0.0, 0.0) && !player.pen.isOn
    ensures firstMove.players == [player.(position := Position(50.0, 0.0))] && firstMove.penLines == []
    ensures secondMove.penLines == [PenLine(Position(50.0, 0.0), Position(50.0, 50.0), 1.0, color)]
    ensures secondMove.players == [player.(position := Position(50.0, 50.0), pen := Pen(true, 1.0, color))]
  {
    var id := player.id;
    var game := new Game();
    var started := game.state;

    var r := game.Update(AddPlayer(player));
    var added := game.state;
    AddPlayerAppends(started, player);
    assert added.players == [player] && added.penLines == [];

    var first := Position(50.0, 0.0);
    AcceptsSetPositionIffPresent(added, id, first);
    r := game.Update(SetPosition(id, first));
    SetPositionMovesAndDraws(added, id, first, 0);
    firstMove := game.state;

    var pen := Pen(true, 1.0, color);
    r := game.Update(SetPen(id, pen));
    var penDown := game.state;
    PlayerUpdateChangesOnlyTarget(firstMove, SetPen(id, pen));
    assert penDown.players == [player.(position := first, pen := pen)] && penDown.penLines == [];

    var second := Position(50.0, 50.0);
    AcceptsSetPositionIffPresent(penDown, id, second);
    r := game.Update(SetPosition(id, second));
    SetPositionMovesAndDraws(penDown, id, second, 0);
    secondMove := game.state;
  }
}
