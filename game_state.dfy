/** The parts of the per-turn `Game` object of lux/game.py that the agent's
    planning code in lux/actions.py reads and changes. The message parsing that
    fills it in is not part of this model: its results come in as a snapshot. */
module LuxState {
  import opened LuxBasics

  /** A city tile of the acting player; it may act when its cooldown is below 1. */
  datatype CityTile = CityTile(pos: Pos, cooldown: nat)

  predicate TileCanAct(t: CityTile) { t.cooldown < 1 }

  /** What the planning code only reads: map size, time of day, research,
      the player's city tiles (in city order), the two players' city-tile sets,
      the convolved fuel and rate matrices, the empty-tile matrix and the
      worker action cooldown from the game constants. */
  datatype Snapshot = Snapshot(
    width: nat, height: nat,
    turnsToNight: int, turnsToDawn: int,
    researchedCoal: bool, researchedUranium: bool,
    cityTiles: seq<CityTile>,
    ownCityTiles: set<Pos>, oppCityTiles: set<Pos>,
    fuelMatrix: seq<seq<int>>, rateMatrix: seq<seq<int>>, emptyTiles: seq<seq<int>>,
    workerCooldown: int)

  predicate ValidSnapshot(s: Snapshot) {
    && IsGrid(s.fuelMatrix, s.width, s.height)
    && IsGrid(s.rateMatrix, s.width, s.height)
    && IsGrid(s.emptyTiles, s.width, s.height)
    && s.workerCooldown > 0
  }

  /** The game state during one turn: the snapshot, the player's units (whose
      cooldowns the movement code raises) and the occupied-tile set. */
  class Game {
    const snap: Snapshot
    var units: seq<Unit>
    var occupied: set<Pos>

    constructor (snap: Snapshot, units: seq<Unit>, occupied: set<Pos>)
      ensures this.snap == snap && this.units == units && this.occupied == occupied
    {
      this.snap := snap;
      this.units := units;
      this.occupied := occupied;
    }
  }
}
