/** The GetIt scene (src/GetIt/Game.cs): the initial state, the reducer that
    computes the next state from a message, the map between scene and
    surface coordinates, and the static holder of the current state. */
module GetIt {
  import opened Models
  import opened ImmutableLists

  /** What the reducer asks the runtime to do besides replacing the state.
      For a trigger message it is the list of callbacks to run, in order, on a
      background worker; every other message asks for nothing. */
  datatype Cmd = NoCmd | RunInBackground(callbacks: seq<Callback>)

  // ---------------------------------------------------------------------
  // Predicates the reducer filters with
  // ---------------------------------------------------------------------

  function HasId(playerId: PlayerId): Player -> bool {
    (p: Player) => p.id == playerId
  }

  function HasOtherId(playerId: PlayerId): Player -> bool {
    (p: Player) => p.id != playerId
  }

  /** `SetPosition` looks its player up with `Single`, which throws unless
      exactly one player has the id; every other message is always accepted. */
  predicate Accepts(message: Message, state: State) {
    message.SetPosition? ==> |Where(state.players, HasId(message.playerId))| == 1
  }

  /** No two players share an id. */
  predicate UniqueIds(players: seq<Player>) {
    forall i, j :: 0 <= i < j < |players| ==> players[i].id != players[j].id
  }

  /** The invariants of a scene: unique player ids and a scene of
      non-negative size. */
  predicate WellFormed(state: State) {
    UniqueIds(state.players) &&
    state.sceneBounds.size.width >= 0.0 && state.sceneBounds.size.height >= 0.0
  }

  /** What callers must ensure for the scene to stay well formed: a player
      is added only under a fresh id, and the scene is never given a
      negative size. The reducer itself does not check either. */
  predicate Admissible(message: Message, state: State) {
    (message.AddPlayer? ==> forall p :: p in state.players ==> p.id != message.player.id) &&
    (message.SetSceneSize? ==> message.size.width >= 0.0 && message.size.height >= 0.0)
  }

  // ---------------------------------------------------------------------
  // Initial state and reducer
  // ---------------------------------------------------------------------

  /** The scene when the window opens: 600 by 400 units centred on the
      origin, the mouse at the origin, nothing else. */
  function Init(): (r: (State, Cmd))
    ensures r.1 == NoCmd
    ensures r.0.sceneBounds.Left() == -300.0 && r.0.sceneBounds.Right() == 300.0
    ensures r.0.sceneBounds.Bottom() == -200.0 && r.0.sceneBounds.Top() == 200.0
    ensures r.0.mousePosition == Position(0.0, 0.0)
    ensures r.0.players == [] && r.0.penLines == []
    ensures r.0.keyDownHandlers == [] && r.0.clickPlayerHandlers == [] && r.0.mouseEnterPlayerHandlers == []
    ensures WellFormed(r.0)
    ensures UpdateCore(SetSceneSize(Size(600.0, 400.0)), r.0).0 == r.0
  {
    var state := State(
      Rectangle(Position(-300.0, -200.0), Size(600.0, 400.0)),
      [],
      [],
      Position(0.0, 0.0),
      [],
      [],
      []);
    (state, NoCmd)
  }

  /** Applies `fn` to every player with the given id and keeps every other
      player, the order of the players and the rest of the scene. */
  function UpdatePlayer(s: State, playerId: PlayerId, fn: Player -> Player): (r: State)
    ensures |r.players| == |s.players|
    ensures forall i :: 0 <= i < |s.players| ==>
      r.players[i] == if s.players[i].id == playerId then fn(s.players[i]) else s.players[i]
    ensures r == s.(players := r.players)
  {
    s.(players := Select(s.players, (player: Player) => if player.id == playerId then fn(player) else player))
  }

  function IsForKey(key: KeyboardKey): KeyDownHandler -> bool {
    (h: KeyDownHandler) => h.key == key
  }

  function IsForClickOn(playerId: PlayerId): ClickPlayerHandler -> bool {
    (h: ClickPlayerHandler) => h.playerId == playerId
  }

  function IsForMouseEnterOn(playerId: PlayerId): MouseEnterPlayerHandler -> bool {
    (h: MouseEnterPlayerHandler) => h.playerId == playerId
  }

  function KeyDownCallback(h: KeyDownHandler): Callback { h.handler }

  function ClickCallback(h: ClickPlayerHandler): Callback { h.handler }

  function MouseEnterCallback(h: MouseEnterPlayerHandler): Callback { h.handler }

  /** The callbacks of the key-down handlers registered for `key`. */
  function KeyDownCallbacks(handlers: seq<KeyDownHandler>, key: KeyboardKey): (r: seq<Callback>)
    ensures forall c :: c in r <==> exists h :: h in handlers && h.key == key && h.handler == c
  {
    SelectWhereImage(handlers, IsForKey(key), KeyDownCallback);
    Select(Where(handlers, IsForKey(key)), KeyDownCallback)
  }

  /** The callbacks of the click handlers registered for `playerId`. */
  function ClickCallbacks(handlers: seq<ClickPlayerHandler>, playerId: PlayerId): (r: seq<Callback>)
    ensures forall c :: c in r <==> exists h :: h in handlers && h.playerId == playerId && h.handler == c
  {
    SelectWhereImage(handlers, IsForClickOn(playerId), ClickCallback);
    Select(Where(handlers, IsForClickOn(playerId)), ClickCallback)
  }

  /** The callbacks of the mouse-enter handlers registered for `playerId`. */
  function MouseEnterCallbacks(handlers: seq<MouseEnterPlayerHandler>, playerId: PlayerId): (r: seq<Callback>)
    ensures forall c :: c in r <==> exists h :: h in handlers && h.playerId == playerId && h.handler == c
  {
    SelectWhereImage(handlers, IsForMouseEnterOn(playerId), MouseEnterCallback);
    Select(Where(handlers, IsForMouseEnterOn(playerId)), MouseEnterCallback)
  }

  /** The reducer: the next scene and the command for one message. A trigger
      leaves the scene as it is; every other message asks for no command. */
  function UpdateCore(message: Message, state: State): (r: (State, Cmd))
    requires Accepts(message, state)
    ensures message.IsTrigger() ==> r.0 == state
    ensures r.1 != NoCmd <==> message.IsTrigger()
  {
    match message
    case SetSceneSize(size) =>
      var bounds := Rectangle(Position(-size.width / 2.0, -size.height / 2.0), size);
      (state.(sceneBounds := bounds), NoCmd)
    case SetMousePosition(position) =>
      (state.(mousePosition := position), NoCmd)
    case SetPosition(playerId, position) =>
      var currentPlayer := Single(state.players, HasId(playerId));
      var newState := UpdatePlayer(state, playerId, (p: Player) => p.(position := position));
      if currentPlayer.pen.isOn then
        var line := PenLine(currentPlayer.position, position, currentPlayer.pen.weight, currentPlayer.pen.color);
        (newState.(penLines := state.penLines + [line]), NoCmd)
      else
        (newState, NoCmd)
    case SetDirection(playerId, angle) =>
      (UpdatePlayer(state, playerId, (p: Player) => p.(direction := angle)), NoCmd)
    case Say(playerId, speechBubble) =>
      (UpdatePlayer(state, playerId, (p: Player) => p.(speechBubble := speechBubble)), NoCmd)
    case SetPen(playerId, pen) =>
      (UpdatePlayer(state, playerId, (p: Player) => p.(pen := pen)), NoCmd)
    case SetSizeFactor(playerId, sizeFactor) =>
      (UpdatePlayer(state, playerId, (p: Player) => p.(sizeFactor := sizeFactor)), NoCmd)
    case AddPlayer(player) =>
      (state.(players := state.players + [player]), NoCmd)
    case RemovePlayer(playerId) =>
      (state.(players := Where(state.players, HasOtherId(playerId))), NoCmd)
    case ClearScene =>
      (state.(penLines := []), NoCmd)
    case AddKeyDownHandler(handler) =>
      (state.(keyDownHandlers := state.keyDownHandlers + [handler]), NoCmd)
    case RemoveKeyDownHandler(handler) =>
      (state.(keyDownHandlers := Remove(state.keyDownHandlers, handler)), NoCmd)
    case TriggerKeyDownEvent(key) =>
      (state, RunInBackground(KeyDownCallbacks(state.keyDownHandlers, key)))
    case AddClickPlayerHandler(handler) =>
      (state.(clickPlayerHandlers := state.clickPlayerHandlers + [handler]), NoCmd)
    case RemoveClickPlayerHandler(handler) =>
      (state.(clickPlayerHandlers := Remove(state.clickPlayerHandlers, handler)), NoCmd)
    case TriggerClickPlayerEvent(playerId) =>
      (state, RunInBackground(ClickCallbacks(state.clickPlayerHandlers, playerId)))
    case AddMouseEnterPlayerHandler(handler) =>
      (state.(mouseEnterPlayerHandlers := state.mouseEnterPlayerHandlers + [handler]), NoCmd)
    case RemoveMouseEnterPlayerHandler(handler) =>
      (state.(mouseEnterPlayerHandlers := Remove(state.mouseEnterPlayerHandlers, handler)), NoCmd)
    case TriggerMouseEnterPlayerEvent(playerId) =>
      (state, RunInBackground(MouseEnterCallbacks(state.mouseEnterPlayerHandlers, playerId)))
  }

  /** Changing players by a function that keeps their ids keeps the ids
      unique. */
  lemma UpdatePlayerKeepsUniqueIds(s: State, playerId: PlayerId, fn: Player -> Player)
    requires UniqueIds(s.players)
    requires forall p :: fn(p).id == p.id
    ensures UniqueIds(UpdatePlayer(s, playerId, fn).players)
  {
    var players := UpdatePlayer(s, playerId, fn).players;
    assert forall i :: 0 <= i < |players| ==> players[i].id == s.players[i].id;
  }

  /** Every message a caller may send keeps the scene well formed. */
  lemma UpdatePreservesWellFormed(message: Message, state: State)
    requires Accepts(message, state) && WellFormed(state) && Admissible(message, state)
    ensures WellFormed(UpdateCore(message, state).0)
  {
    match message
    case SetPosition(playerId, position) =>
      UpdatePlayerKeepsUniqueIds(state, playerId, (p: Player) => p.(position := position));
    case SetDirection(playerId, angle) =>
      UpdatePlayerKeepsUniqueIds(state, playerId, (p: Player) => p.(direction := angle));
    case Say(playerId, speechBubble) =>
      UpdatePlayerKeepsUniqueIds(state, playerId, (p: Player) => p.(speechBubble := speechBubble));
    case SetPen(playerId, pen) =>
      UpdatePlayerKeepsUniqueIds(state, playerId, (p: Player) => p.(pen := pen));
    case SetSizeFactor(playerId, sizeFactor) =>
      UpdatePlayerKeepsUniqueIds(state, playerId, (p: Player) => p.(sizeFactor := sizeFactor));
    case AddPlayer(player) =>
      var players := state.players + [player];
      forall i, j | 0 <= i < j < |players| ensures players[i].id != players[j].id {
        if j == |state.players| {
          assert players[i] in state.players;
        }
      }
    case RemovePlayer(playerId) =>
      WhereKeepsDistinct(state.players, HasOtherId(playerId), (p: Player) => p.id);
    case _ =>
  }

  // ---------------------------------------------------------------------
  // Scene and surface coordinates
  // ---------------------------------------------------------------------

  /** The scene position of a point of the drawing surface. */
  function GetPosition(state: State, screenCoordinate: Point): (r: Position)
    ensures screenCoordinate.x == 0.0 ==> r.x == state.sceneBounds.Left()
    ensures screenCoordinate.y == 0.0 ==> r.y == state.sceneBounds.Top()
  {
    Position(
      state.sceneBounds.Left() + screenCoordinate.x,
      state.sceneBounds.Top() - screenCoordinate.y)
  }

  /** Distance of a scene position from the left edge of the surface: in
      [0, width] exactly when the position lies between the scene's left
      and right edges. */
  function GetScreenCoordinateX(state: State, position: Position): (r: real)
    ensures r >= 0.0 <==> position.x >= state.sceneBounds.Left()
    ensures r <= state.sceneBounds.size.width <==> position.x <= state.sceneBounds.Right()
  {
    position.x - state.sceneBounds.Left()
  }

  /** Distance of a scene position from the top edge of the surface: the
      y axis flips, so higher scene positions get smaller values. */
  function GetScreenCoordinateY(state: State, position: Position): (r: real)
    ensures r >= 0.0 <==> position.y <= state.sceneBounds.Top()
    ensures r <= state.sceneBounds.size.height <==> position.y >= state.sceneBounds.Bottom()
  {
    state.sceneBounds.Top() - position.y
  }

  /** The surface point of a scene position; `GetPosition` maps it back. */
  function GetScreenCoordinate(state: State, position: Position): (r: Point)
    ensures GetPosition(state, r) == position
  {
    Point(GetScreenCoordinateX(state, position), GetScreenCoordinateY(state, position))
  }

  // ---------------------------------------------------------------------
  // The current state
  // ---------------------------------------------------------------------

  /** The static `Game` class: it holds the state the reducer last produced. */
  class Game {
    var state: State

    /** Starting the scene stores the initial state. */
    constructor ()
      ensures state == Init().0
      ensures WellFormed(state)
    {
      state := Init().0;
    }

    /** Runs the reducer on the held state, stores the new state and returns
      it with the command. */
    method Update(message: Message) returns (r: (State, Cmd))
      requires Accepts(message, state)
      modifies this
      ensures state == UpdateCore(message, old(state)).0
      ensures r == (state, UpdateCore(message, old(state)).1)
      ensures old(WellFormed(state)) && old(Admissible(message, state)) ==> WellFormed(state)
    {
      if WellFormed(state) && Admissible(message, state) {
        UpdatePreservesWellFormed(message, state);
      }
      var (newState, cmd) := UpdateCore(message, state);
      state := newState;
      r := (state, cmd);
    }
  }
}
