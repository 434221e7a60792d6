/** The immutable values the GetIt scene is made of (namespace GetIt.Models).
    Coordinates are `real`: the source's `double` arithmetic is modelled
    without rounding. */
module Models {

  /** A point in scene coordinates: origin at the centre of the scene, y up. */
  datatype Position = Position(x: real, y: real)

  /** A point in surface coordinates: origin at the top-left corner, y down. */
  datatype Point = Point(x: real, y: real)

  datatype Size = Size(width: real, height: real)

  /** An axis-aligned rectangle given by its corner of least x and y and its
      size; y grows upwards, so that corner is the left-bottom one. */
  datatype Rectangle = Rectangle(position: Position, size: Size) {
    function Left(): real { position.x }
    function Right(): real { position.x + size.width }
    function Bottom(): real { position.y }
    function Top(): real { position.y + size.height }
  }

  /** A direction in degrees. */
  datatype Degrees = Degrees(value: real)

  datatype RGBColor = RGBColor(red: int, green: int, blue: int)

  datatype Pen = Pen(isOn: bool, weight: real, color: RGBColor)

  datatype SpeechBubble = SpeechBubble(text: string)

  /** A player's `Guid`. */
  type PlayerId = nat

  /** The costume a player is drawn with; only the view looks inside it. */
  type CostumeId = nat

  /** The code of a keyboard key. */
  type KeyboardKey = nat

  /** A user-supplied callback, identified abstractly: the reducer only
      selects callbacks, it never runs them. */
  type Callback = nat

  datatype Player = Player(
    id: PlayerId,
    size: Size,
    position: Position,
    direction: Degrees,
    pen: Pen,
    speechBubble: SpeechBubble,
    sizeFactor: real,
    costume: CostumeId)

  /** One drawn segment; its weight and colour are those of the pen at the
      moment it was drawn. */
  datatype PenLine = PenLine(start: Position, end: Position, weight: real, color: RGBColor)

  datatype KeyDownHandler = KeyDownHandler(key: KeyboardKey, handler: Callback)

  datatype ClickPlayerHandler = ClickPlayerHandler(playerId: PlayerId, handler: Callback)

  datatype MouseEnterPlayerHandler = MouseEnterPlayerHandler(playerId: PlayerId, handler: Callback)

  /** The whole scene: replaced, never changed in place, by every message. */
  datatype State = State(
    sceneBounds: Rectangle,
    players: seq<Player>,
    penLines: seq<PenLine>,
    mousePosition: Position,
    keyDownHandlers: seq<KeyDownHandler>,
    clickPlayerHandlers: seq<ClickPlayerHandler>,
    mouseEnterPlayerHandlers: seq<MouseEnterPlayerHandler>)

  /** Everything that can be dispatched to the scene. */
  datatype Message =
    | SetSceneSize(size: Size)
    | SetMousePosition(position: Position)
    | SetPosition(playerId: PlayerId, position: Position)
    | SetDirection(playerId: PlayerId, angle: Degrees)
    | Say(playerId: PlayerId, speechBubble: SpeechBubble)
    | SetPen(playerId: PlayerId, pen: Pen)
    | SetSizeFactor(playerId: PlayerId, sizeFactor: real)
    | AddPlayer(player: Player)
    | RemovePlayer(playerId: PlayerId)
    | ClearScene
    | AddKeyDownHandler(keyDownHandler: KeyDownHandler)
    | RemoveKeyDownHandler(keyDownHandler: KeyDownHandler)
    | TriggerKeyDownEvent(key: KeyboardKey)
    | AddClickPlayerHandler(clickHandler: ClickPlayerHandler)
    | RemoveClickPlayerHandler(clickHandler: ClickPlayerHandler)
    | TriggerClickPlayerEvent(playerId: PlayerId)
    | AddMouseEnterPlayerHandler(mouseEnterHandler: MouseEnterPlayerHandler)
    | RemoveMouseEnterPlayerHandler(mouseEnterHandler: MouseEnterPlayerHandler)
    | TriggerMouseEnterPlayerEvent(playerId: PlayerId)
  {
    /** The messages that only raise an event and leave the scene alone. */
    predicate IsTrigger() {
      TriggerKeyDownEvent? || TriggerClickPlayerEvent? || TriggerMouseEnterPlayerEvent?
    }

    /** The messages that change one player, found by its id. */
    predicate IsPlayerUpdate() {
      SetPosition? || SetDirection? || Say? || SetPen? || SetSizeFactor?
    }
  }
}
