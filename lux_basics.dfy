/** Positions, directions, units and the command strings units emit. The
    position and unit classes of the kit are not part of this model; only what
    the agent logic reads of them is kept here. */
module LuxBasics {

  datatype Option<T> = None | Some(value: T)

  /** A tile coordinate: x grows to the east, y to the south. */
  datatype Pos = Pos(x: int, y: int)

  datatype Direction = North | East | South | West | Center

  function Abs(n: int): nat { if n < 0 then -n else n }

  function Min(a: int, b: int): int { if a <= b then a else b }

  function Max(a: int, b: int): int { if a >= b then a else b }

  /** Manhattan distance, which is what `distance_to` and `position - other` compute. */
  function Distance(a: Pos, b: Pos): nat { Abs(a.x - b.x) + Abs(a.y - b.y) }

  /** One step in a direction; `Center` stays put. */
  function Translate(p: Pos, d: Direction): (q: Pos)
    ensures Distance(p, q) == if d == Center then 0 else 1
  {
    match d
    case North => Pos(p.x, p.y - 1)
    case South => Pos(p.x, p.y + 1)
    case East => Pos(p.x + 1, p.y)
    case West => Pos(p.x - 1, p.y)
    case Center => p
  }

  function DirectionChar(d: Direction): char {
    match d
    case North => 'n'
    case South => 's'
    case East => 'e'
    case West => 'w'
    case Center => 'c'
  }

  /** A rectangular matrix of `h` rows of `w` entries, indexed `[y][x]`. */
  predicate IsGrid<T>(g: seq<seq<T>>, w: nat, h: nat) {
    |g| == h && forall y :: 0 <= y < h ==> |g[y]| == w
  }

  predicate InGrid(x: int, y: int, w: nat, h: nat) {
    0 <= x < w && 0 <= y < h
  }

  type UnitId = string

  datatype Cargo = Cargo(wood: nat, coal: nat, uranium: nat)

  function CargoTotal(c: Cargo): nat { c.wood + c.coal + c.uranium }

  /** Resource capacity of a worker. */
  const WorkerCapacity: int := 100

  /** A unit of the acting player; `cooldown` is the only field the agent changes. */
  datatype Unit = Unit(id: UnitId, pos: Pos, cooldown: nat, cargo: Cargo)

  predicate CanAct(u: Unit) { u.cooldown < 1 }

  function SpaceLeft(u: Unit): int { WorkerCapacity - CargoTotal(u.cargo) }

  predicate DistinctIds(units: seq<Unit>) {
    forall a, b :: 0 <= a < b < |units| ==> units[a].id != units[b].id
  }

  /** The command a unit emits to move one step (`unit.move(d)`). */
  function MoveCommand(id: UnitId, d: Direction): string {
    "m " + id + " " + [DirectionChar(d)]
  }

  /** The command a unit emits to found a city tile where it stands (`unit.build_city()`). */
  function BuildCityCommand(id: UnitId): string {
    "bcity " + id
  }

  /** The player's `units_by_id` index: a later unit with the same id replaces an earlier one. */
  function ById(units: seq<Unit>): (m: map<UnitId, Unit>)
    ensures forall i :: 0 <= i < |units| ==> units[i].id in m
    ensures forall k :: k in m ==> m[k].id == k && m[k] in units
    ensures DistinctIds(units) ==> forall i :: 0 <= i < |units| ==> m[units[i].id] == units[i]
  {
    if units == [] then map[]
    else
      var last := units[|units| - 1];
      var rest := ById(units[..|units| - 1]);
      assert forall i :: 0 <= i < |units| - 1 ==> units[..|units| - 1][i] == units[i];
      rest[last.id := last]
  }
}
