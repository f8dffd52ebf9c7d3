/** The game's API as the bot sees it: the per-tick snapshot, the constants of
    the match, the geometry helpers and the commands the bot can issue. */
module LiaApi {

  datatype Option<T> = None | Some(value: T)

  datatype UnitType = Worker | Warrior

  /** Speed.NONE, FORWARD, BACKWARD */
  datatype Speed = SpeedNone | Forward | Backward

  /** Rotation.NONE, LEFT, RIGHT, SLOW_LEFT, SLOW_RIGHT */
  datatype Rotation = RotationNone | Left | Right | SlowLeft | SlowRight

  datatype Point = Point(x: real, y: real)

  /** Where a unit stands and where it faces: all the angle helper needs of it. */
  datatype Pose = Pose(x: real, y: real, orientation: real)

  datatype OpponentInView = OpponentInView(id: int, utype: UnitType, health: int, x: real, y: real, orientation: real)

  datatype ResourceInView = ResourceInView(x: real, y: real)

  /** One of the bot's own units as delivered in this tick's snapshot. */
  datatype UnitData = UnitData(
    id: int,
    utype: UnitType,
    health: int,
    x: real,
    y: real,
    orientation: real,
    speed: Speed,
    canShoot: bool,
    opponentsInView: seq<OpponentInView>,
    resourcesInView: seq<ResourceInView>,
    navigationPath: seq<Point>)

  datatype GameState = GameState(resources: int, units: seq<UnitData>)

  /** The match constants: unit prices, map size, the own spawn point and the
      obstacle grid (`obstacle(x, y)` is the value of MAP[x][y]: true means blocked). */
  datatype Config = Config(
    workerPrice: int,
    warriorPrice: int,
    mapWidth: int,
    mapHeight: int,
    spawn: Point,
    obstacle: (int, int) -> bool)

  /** The geometry helpers, taken as given: `angle(p, x, y)` is the signed angle
      in degrees between the facing of pose p and the point (x, y);
      `distance(x1, y1, x2, y2)` is the distance between two points. */
  datatype Geometry = Geometry(
    angle: (Pose, real, real) -> real,
    distance: (real, real, real, real) -> real)

  /** What a unit says; the exact wording is cosmetic. */
  datatype Phrase = HealthReport(health: int) | RunAway | Taunt

  /** One call on the Api object. `Wander` stands for a navigationStart to a
      randomly drawn passable cell. */
  datatype Command =
    | Spawn(utype: UnitType)
    | NavigationStart(unitId: int, x: real, y: real, flee: bool)
    | Wander(unitId: int)
    | NavigationStop(unitId: int)
    | SetSpeed(unitId: int, speed: Speed)
    | SetRotation(unitId: int, rotation: Rotation)
    | Shoot(unitId: int)
    | SaySomething(unitId: int, phrase: Phrase)

  /** Every command in cs is addressed to the unit with the given id (so none is a spawn). */
  predicate AllAddress(cs: seq<Command>, id: int)
  {
    forall c :: c in cs ==> !c.Spawn? && c.unitId == id
  }

  function PoseOf(u: UnitData): Pose
  {
    Pose(u.x, u.y, u.orientation)
  }

  function OpponentPose(o: OpponentInView): Pose
  {
    Pose(o.x, o.y, o.orientation)
  }

  /** Math.abs on a float. */
  function Abs(r: real): (a: real)
    ensures a >= 0.0 && (a == r || a == -r)
  {
    if r < 0.0 then -r else r
  }

  /** Java's int division by 2, which truncates toward zero. */
  function HalfOf(n: int): (h: int)
    ensures n >= 0 ==> 0 <= 2 * h <= n < 2 * h + 2
    ensures n < 0 ==> 2 * h - 2 < n <= 2 * h <= 0
  {
    if n >= 0 then n / 2 else -((-n) / 2)
  }

  /** Java's (int) cast of a float, which truncates toward zero. */
  function TruncToInt(r: real): (i: int)
    ensures r >= 0.0 ==> i as real <= r < i as real + 1.0
    ensures r < 0.0 ==> i as real - 1.0 < r <= i as real
  {
    if r >= 0.0 then r.Floor else -((-r).Floor)
  }
}
