/**
  The component shapes the modelled code reads and writes, and the names under
  which a world keeps them.  A world's `components` record has one map per
  name; every map entry holds a value of that name's shape.
 */
module Components {
  import opened Vector2

  /** The keys of a world's `components` record (the base components, the Flappy-bird ones and `entityMovedEvent`). */
  datatype Name =
    | Position | Velocity | Acceleration | Force | Mass | Spring | UserControl
    | CanvasRectangle | CanvasLine | CanvasText | CanvasSprite | CanvasSpritePosition
    | EntityMovedEvent | Bird | Pipe | Tile | Score | GameState

  /** A spring between two entities, with stiffness `k` and rest length `originalDistance`. */
  datatype SpringData = SpringData(entity1: int, entity2: int, k: real, originalDistance: real)

  /** The data of a straight line drawn on the canvas. */
  datatype Line = Line(strokeStyle: string, x1: real, y1: real, x2: real, y2: real, zIndex: real)

  /** The data of a text drawn on the canvas. */
  datatype Text = Text(text: string, font: string, strokeStyle: string, x: real, y: real)

  /** The two values of the Flappy-bird `gameState` component. */
  datatype GameStatus = Active | Over

  /**
    One component value.  `VecVal` holds every `{x, y}` component; `FlagVal`
    the boolean ones (`entityMovedEvent`, `pipe`, `tile`); `OtherVal` those
    the modelled code never reads or writes (`userControl`, `canvasRectangle`,
    `canvasSprite`, `score`).
   */
  datatype Value =
    | VecVal(vec: Vec)
    | MassVal(mass: real)
    | SpringVal(spring: SpringData)
    | LineVal(line: Line)
    | TextVal(text: Text)
    | FlagVal(flag: bool)
    | BirdVal(lastTimeKeyPressed: real)
    | StateVal(state: GameStatus)
    | OtherVal

  /** The shape each component name gives its values. */
  predicate Fits(n: Name, v: Value)
  {
    match n
    case Position | Velocity | Acceleration | Force | CanvasSpritePosition => v.VecVal?
    case Mass => v.MassVal?
    case Spring => v.SpringVal?
    case CanvasLine => v.LineVal?
    case CanvasText => v.TextVal?
    case EntityMovedEvent | Pipe | Tile => v.FlagVal?
    case Bird => v.BirdVal?
    case GameState => v.StateVal?
    case UserControl | CanvasRectangle | CanvasSprite | Score => v.OtherVal?
  }

  /*
    Total readers.  In a well-formed world each is applied only to a value of
    its own shape, where it returns that value's field.
   */

  function AsVec(v: Value): (r: Vec)
    ensures v.VecVal? ==> v == VecVal(r)
  {
    if v.VecVal? then v.vec else Zero
  }

  function AsMass(v: Value): (r: real)
    ensures v.MassVal? ==> v == MassVal(r)
  {
    if v.MassVal? then v.mass else 0.0
  }

  function AsSpring(v: Value): (r: SpringData)
    ensures v.SpringVal? ==> v == SpringVal(r)
  {
    if v.SpringVal? then v.spring else SpringData(0, 0, 0.0, 0.0)
  }

  function AsLine(v: Value): (r: Line)
    ensures v.LineVal? ==> v == LineVal(r)
  {
    if v.LineVal? then v.line else Line("", 0.0, 0.0, 0.0, 0.0, 0.0)
  }

  function AsBird(v: Value): (r: real)
    ensures v.BirdVal? ==> v == BirdVal(r)
  {
    if v.BirdVal? then v.lastTimeKeyPressed else 0.0
  }

  function AsState(v: Value): (r: GameStatus)
    ensures v.StateVal? ==> v == StateVal(r)
  {
    if v.StateVal? then v.state else Active
  }
}
