/** Planning of lux/actions.py: `make_city_actions`, which lets every city tile
    research or build a worker, and `make_unit_missions`, which gives units new
    targets in the mission store. */
module LuxPlanning {
  import opened LuxBasics
  import opened LuxState
  import opened LuxMissions
  import LuxGame
  import LuxFindCluster

  // ---------------------------------------------------------------------------
  // make_city_actions

  /** What a city tile can be told to do. */
  datatype CityAction = Research(tile: CityTile) | BuildWorker(tile: CityTile)

  /** The distance multiplier `find_best_cluster` uses when none is given. */
  const DefaultMultiplier: real := -0.1

  /** The weight of the best cluster around a city tile, the key the tiles are sorted by. */
  function TileValue(snap: Snapshot, weight: LuxFindCluster.Weight, t: CityTile): real
    requires snap.workerCooldown > 0
  {
    var range := LuxFindCluster.TravelRange(snap.turnsToNight, snap.workerCooldown);
    LuxFindCluster.BestCluster(snap.fuelMatrix, t.pos, range, weight, DefaultMultiplier).1
  }

  /** The sort key as a function of the tile. */
  function ClusterKey(snap: Snapshot, weight: LuxFindCluster.Weight): (key: CityTile -> real)
    requires snap.workerCooldown > 0
  {
    t => TileValue(snap, weight, t)
  }

  predicate Descending(key: CityTile -> real, s: seq<CityTile>)
  {
    forall i, j :: 0 <= i < j < |s| ==> key(s[i]) >= key(s[j])
  }

  /** Insert `x` in front of the first tile whose key is not above its own. */
  function Insert(key: CityTile -> real, x: CityTile, s: seq<CityTile>): (r: seq<CityTile>)
    requires Descending(key, s)
    ensures Descending(key, r)
    ensures multiset(r) == multiset{x} + multiset(s) && |r| == |s| + 1
    ensures forall y :: y in r ==> y == x || y in s
  {
    if s == [] || key(x) >= key(s[0]) then
      [x] + s
    else
      var rest := Insert(key, x, s[1..]);
      assert s == [s[0]] + s[1..];
      assert forall j :: 0 <= j < |rest| ==> key(s[0]) >= key(rest[j]) by {
        forall j | 0 <= j < |rest|
          ensures key(s[0]) >= key(rest[j])
        {
          assert rest[j] in rest;
          if rest[j] != x {
            var i :| 0 <= i < |s[1..]| && s[1..][i] == rest[j];
            assert s[i + 1] == rest[j];
          }
        }
      }
      [s[0]] + rest
  }

  /** The tiles of `s` whose key is `v`, in the order of `s`. */
  function WithKey(key: CityTile -> real, s: seq<CityTile>, v: real): seq<CityTile>
  {
    if s == [] then [] else (if key(s[0]) == v then [s[0]] else []) + WithKey(key, s[1..], v)
  }

  /** `Insert` puts `x` before every tile of `s` with the same key. */
  lemma {:induction false} InsertStable(key: CityTile -> real, x: CityTile, s: seq<CityTile>)
    requires Descending(key, s)
    ensures forall v :: WithKey(key, Insert(key, x, s), v) == (if key(x) == v then [x] else []) + WithKey(key, s, v)
  {
    if s == [] || key(x) >= key(s[0]) {
      assert ([x] + s)[1..] == s;
    } else {
      InsertStable(key, x, s[1..]);
      var rest := Insert(key, x, s[1..]);
      assert Insert(key, x, s) == [s[0]] + rest;
      assert ([s[0]] + rest)[1..] == rest;
    }
  }

  /** `sorted(city_tiles, key=..., reverse=True)`: city tiles in descending
      cluster value, a permutation of the input in which tiles of equal value
      keep their input order, as Python's stable sort keeps them. */
  function SortDescending(key: CityTile -> real, s: seq<CityTile>): (r: seq<CityTile>)
    ensures Descending(key, r) && multiset(r) == multiset(s)
    ensures forall v :: WithKey(key, r, v) == WithKey(key, s, v)
  {
    if s == [] then []
    else
      assert s == [s[0]] + s[1..];
      var sorted := SortDescending(key, s[1..]);
      InsertStable(key, s[0], sorted);
      Insert(key, s[0], sorted)
  }

  /** The decision for one city tile that comes up in the loop: `total` is
      the number of the player's city tiles, `count` the running unit count and
      `cap` the unit cap. */
  function Decide(snap: Snapshot, key: CityTile -> real, t: CityTile,
                  total: int, count: int, cap: int): Option<CityAction>
  {
    var exceeded := count >= cap;
    if !TileCanAct(t) then None
    else if snap.researchedUranium && exceeded then None
    else if !snap.researchedUranium && snap.turnsToNight < 6 then Some(Research(t))
    else if !snap.researchedCoal && total > 4 && total % 2 == 1 then Some(Research(t))
    else if !exceeded && key(t) > 0.0 then Some(BuildWorker(t))
    else if !snap.researchedUranium then Some(Research(t))
    else None
  }

  /** The unit count after a decision: a build adds one. */
  function CountAfter(d: Option<CityAction>, count: int): int {
    if d.Some? && d.value.BuildWorker? then count + 1 else count
  }

  /** The decision loop over the sorted tiles. */
  function CityDecisions(snap: Snapshot, key: CityTile -> real, tiles: seq<CityTile>,
                         total: int, count: int, cap: int): seq<CityAction>
    decreases |tiles|
  {
    if tiles == [] then []
    else
      var d := Decide(snap, key, tiles[0], total, count, cap);
      (if d.Some? then [d.value] else []) + CityDecisions(snap, key, tiles[1..], total, CountAfter(d, count), cap)
  }

  /** The rules of one decision: only a tile that can act does anything, and
      only about itself; a build needs room under the cap; before uranium a
      tile that can act always acts, and at night it researches; once coal and
      uranium are researched a tile only builds. */
  lemma DecideSound(snap: Snapshot, key: CityTile -> real, t: CityTile, total: int, count: int, cap: int)
    ensures var d := Decide(snap, key, t, total, count, cap);
            && (d.Some? ==> d.value.tile == t && TileCanAct(t))
            && (d.Some? && d.value.BuildWorker? ==> count < cap && key(t) > 0.0)
            && (!snap.researchedUranium ==> (d.Some? <==> TileCanAct(t)))
            && (!snap.researchedUranium && snap.turnsToNight < 6 && d.Some? ==> d.value.Research?)
            && (snap.researchedCoal && snap.researchedUranium && d.Some? ==> d.value.BuildWorker?)
  {
  }

  /** The city tiles that may act, in order. */
  function Acting(tiles: seq<CityTile>): (r: seq<CityTile>)
    ensures |r| <= |tiles|
  {
    if tiles == [] then []
    else (if TileCanAct(tiles[0]) then [tiles[0]] else []) + Acting(tiles[1..])
  }

  function ActionTiles(actions: seq<CityAction>): (r: seq<CityTile>)
    ensures |r| == |actions|
  {
    if actions == [] then [] else [actions[0].tile] + ActionTiles(actions[1..])
  }

  function Builds(actions: seq<CityAction>): (n: nat)
    ensures n <= |actions|
  {
    if actions == [] then 0 else (if actions[0].BuildWorker? then 1 else 0) + Builds(actions[1..])
  }

  /** The loop takes the first tile's decision, then the rest with the updated count. */
  lemma DecisionsFirst(snap: Snapshot, key: CityTile -> real, tiles: seq<CityTile>, total: int, count: int, cap: int)
    requires tiles != []
    ensures var d := Decide(snap, key, tiles[0], total, count, cap);
            var tail := CityDecisions(snap, key, tiles[1..], total, CountAfter(d, count), cap);
            var r := CityDecisions(snap, key, tiles, total, count, cap);
            && (d.None? ==> r == tail)
            && (d.Some? ==> r == [d.value] + tail && ActionTiles(r) == [tiles[0]] + ActionTiles(tail)
                            && Builds(r) == (if d.value.BuildWorker? then 1 else 0) + Builds(tail))
            && Acting(tiles) == (if TileCanAct(tiles[0]) then [tiles[0]] else []) + Acting(tiles[1..])
  {
    var d := Decide(snap, key, tiles[0], total, count, cap);
    var tail := CityDecisions(snap, key, tiles[1..], total, CountAfter(d, count), cap);
    var r := CityDecisions(snap, key, tiles, total, count, cap);
    if d.None? {
      assert r == [] + tail;
    } else {
      assert r[1..] == tail;
    }
  }

  /** Each action of the loop belongs to a different tile of the input that can act. */
  lemma {:induction false} DecisionsFromActingTiles(snap: Snapshot, key: CityTile -> real, tiles: seq<CityTile>,
                                                    total: int, count: int, cap: int)
    ensures var r := CityDecisions(snap, key, tiles, total, count, cap);
            && multiset(ActionTiles(r)) <= multiset(Acting(tiles))
            && (forall j :: 0 <= j < |r| ==> TileCanAct(r[j].tile))
    decreases |tiles|
  {
    if tiles != [] {
      var t := tiles[0];
      var d := Decide(snap, key, t, total, count, cap);
      DecideSound(snap, key, t, total, count, cap);
      DecisionsFirst(snap, key, tiles, total, count, cap);
      DecisionsFromActingTiles(snap, key, tiles[1..], total, CountAfter(d, count), cap);
      var tail := CityDecisions(snap, key, tiles[1..], total, CountAfter(d, count), cap);
      var r := CityDecisions(snap, key, tiles, total, count, cap);
      if d.Some? {
        assert multiset(ActionTiles(r)) == multiset{t} + multiset(ActionTiles(tail));
        assert multiset(Acting(tiles)) == multiset{t} + multiset(Acting(tiles[1..]));
        forall j | 0 <= j < |r|
          ensures TileCanAct(r[j].tile)
        {
          if j > 0 {
            assert r[j] == tail[j - 1];
          }
        }
      } else {
        assert multiset(Acting(tiles[1..])) <= multiset(Acting(tiles));
      }
    }
  }

  /** Builds never take the unit count past the cap, nor past its starting
      value when that is already at or over the cap. */
  lemma {:induction false} BuildsWithinCap(snap: Snapshot, key: CityTile -> real, tiles: seq<CityTile>,
                                           total: int, count: int, cap: int)
    ensures count + Builds(CityDecisions(snap, key, tiles, total, count, cap)) <= Max(count, cap)
    decreases |tiles|
  {
    if tiles != [] {
      var d := Decide(snap, key, tiles[0], total, count, cap);
      DecideSound(snap, key, tiles[0], total, count, cap);
      DecisionsFirst(snap, key, tiles, total, count, cap);
      BuildsWithinCap(snap, key, tiles[1..], total, CountAfter(d, count), cap);
    }
  }

  /** Before uranium is researched every tile that can act does something, in
      the order of the input, and at night that is always research. */
  lemma {:induction false} EveryTileActsBeforeUranium(snap: Snapshot, key: CityTile -> real, tiles: seq<CityTile>,
                                                      total: int, count: int, cap: int)
    requires !snap.researchedUranium
    ensures var r := CityDecisions(snap, key, tiles, total, count, cap);
            && ActionTiles(r) == Acting(tiles)
            && (snap.turnsToNight < 6 ==> Builds(r) == 0)
    decreases |tiles|
  {
    if tiles != [] {
      var d := Decide(snap, key, tiles[0], total, count, cap);
      DecideSound(snap, key, tiles[0], total, count, cap);
      DecisionsFirst(snap, key, tiles, total, count, cap);
      EveryTileActsBeforeUranium(snap, key, tiles[1..], total, CountAfter(d, count), cap);
      if !TileCanAct(tiles[0]) {
        assert Acting(tiles) == [] + Acting(tiles[1..]);
      }
    }
  }

  /** With coal and uranium researched the tiles only build. */
  lemma {:induction false} OnlyBuildsWhenResearched(snap: Snapshot, key: CityTile -> real, tiles: seq<CityTile>,
                                                    total: int, count: int, cap: int)
    requires snap.researchedCoal && snap.researchedUranium
    ensures var r := CityDecisions(snap, key, tiles, total, count, cap);
            Builds(r) == |r|
    decreases |tiles|
  {
    if tiles != [] {
      var d := Decide(snap, key, tiles[0], total, count, cap);
      DecideSound(snap, key, tiles[0], total, count, cap);
      DecisionsFirst(snap, key, tiles, total, count, cap);
      OnlyBuildsWhenResearched(snap, key, tiles[1..], total, CountAfter(d, count), cap);
    }
  }

  /** Every tile that acts is one of the input tiles. */
  lemma {:induction false} DecisionTilesIn(snap: Snapshot, key: CityTile -> real, tiles: seq<CityTile>,
                                           total: int, count: int, cap: int)
    ensures forall x :: x in ActionTiles(CityDecisions(snap, key, tiles, total, count, cap)) ==> x in tiles
    decreases |tiles|
  {
    if tiles != [] {
      var d := Decide(snap, key, tiles[0], total, count, cap);
      DecideSound(snap, key, tiles[0], total, count, cap);
      DecisionsFirst(snap, key, tiles, total, count, cap);
      DecisionTilesIn(snap, key, tiles[1..], total, CountAfter(d, count), cap);
      var tail := ActionTiles(CityDecisions(snap, key, tiles[1..], total, CountAfter(d, count), cap));
      var r := ActionTiles(CityDecisions(snap, key, tiles, total, count, cap));
      assert tiles == [tiles[0]] + tiles[1..];
      if d.Some? {
        assert r == [tiles[0]] + tail;
      } else {
        assert r == tail;
      }
    }
  }

  /** Tiles visited in descending cluster value act in that order. */
  lemma {:induction false} DecisionsKeepOrder(snap: Snapshot, key: CityTile -> real, tiles: seq<CityTile>,
                                              total: int, count: int, cap: int)
    requires Descending(key, tiles)
    ensures Descending(key, ActionTiles(CityDecisions(snap, key, tiles, total, count, cap)))
    decreases |tiles|
  {
    if tiles != [] {
      var d := Decide(snap, key, tiles[0], total, count, cap);
      var rest := tiles[1..];
      DecideSound(snap, key, tiles[0], total, count, cap);
      DecisionsFirst(snap, key, tiles, total, count, cap);
      assert Descending(key, rest);
      DecisionsKeepOrder(snap, key, rest, total, CountAfter(d, count), cap);
      if d.Some? {
        var tail := ActionTiles(CityDecisions(snap, key, rest, total, CountAfter(d, count), cap));
        var r := ActionTiles(CityDecisions(snap, key, tiles, total, count, cap));
        DecisionTilesIn(snap, key, rest, total, CountAfter(d, count), cap);
        assert r == [tiles[0]] + tail;
        forall i, j | 0 <= i < j < |r|
          ensures key(r[i]) >= key(r[j])
        {
          assert r[j] == tail[j - 1];
          if i == 0 {
            var x := tail[j - 1];
            assert x in tail;
            assert x in rest;
            var m :| 0 <= m < |rest| && rest[m] == x;
            assert tiles[m + 1] == x;
          } else {
            assert r[i] == tail[i - 1];
          }
        }
      }
    }
  }

  /** Reordering the tiles does not change how many of them can act. */
  lemma ActingCount(s: seq<CityTile>, t: seq<CityTile>)
    requires multiset(s) == multiset(t)
    ensures |Acting(s)| == |Acting(t)|
  {
    ActingSubset(s);
    ActingSubset(t);
    assert multiset(Acting(s)) == multiset(Acting(t));
    assert |multiset(Acting(s))| == |multiset(Acting(t))|;
  }

  lemma {:induction false} ActingSubset(tiles: seq<CityTile>)
    ensures multiset(Acting(tiles)) <= multiset(tiles)
    ensures forall t :: multiset(Acting(tiles))[t] == if TileCanAct(t) then multiset(tiles)[t] else 0
  {
    if tiles != [] {
      var rest := tiles[1..];
      ActingSubset(rest);
      assert tiles == [tiles[0]] + rest;
      assert multiset(tiles) == multiset{tiles[0]} + multiset(rest);
      assert multiset(Acting(tiles)) == multiset(if TileCanAct(tiles[0]) then [tiles[0]] else []) + multiset(Acting(rest));
    }
  }

  /** `make_city_actions`: no actions without city tiles; otherwise visit the
      tiles in descending cluster value with the unit count of the player and a
      cap of one unit per city tile. */
  method MakeCityActions(game: Game, weight: LuxFindCluster.Weight) returns (actions: seq<CityAction>)
    requires game.snap.workerCooldown > 0
    ensures var snap := game.snap;
            actions == CityDecisions(snap, ClusterKey(snap, weight), SortDescending(ClusterKey(snap, weight), snap.cityTiles),
                                     |snap.cityTiles|, |game.units|, |snap.cityTiles|)
  {
    var snap := game.snap;
    var unitsCap := |snap.cityTiles|;
    var unitsCnt := |game.units|;
    actions := [];
    if snap.cityTiles == [] {
      return;
    }
    var cityTiles := SortDescending(ClusterKey(snap, weight), snap.cityTiles);
    assert |cityTiles| == |snap.cityTiles| by {
      assert |multiset(cityTiles)| == |multiset(snap.cityTiles)|;
    }
    actions := VisitCityTiles(snap, weight, cityTiles, unitsCnt, unitsCap);
  }

  /** The loop of `make_city_actions` over the sorted city tiles. */
  method VisitCityTiles(snap: Snapshot, weight: LuxFindCluster.Weight, cityTiles: seq<CityTile>,
                        unitsCount: int, unitsCap: int) returns (actions: seq<CityAction>)
    requires snap.workerCooldown > 0
    ensures actions == CityDecisions(snap, ClusterKey(snap, weight), cityTiles, |cityTiles|, unitsCount, unitsCap)
  {
    ghost var key := ClusterKey(snap, weight);
    var unitsCnt := unitsCount;
    actions := [];
    var k := 0;
    while k < |cityTiles|
      invariant 0 <= k <= |cityTiles|
      invariant actions + CityDecisions(snap, key, cityTiles[k..], |cityTiles|, unitsCnt, unitsCap)
                == CityDecisions(snap, key, cityTiles, |cityTiles|, unitsCount, unitsCap)
    {
      var cityTile := cityTiles[k];
      assert cityTiles[k..][1..] == cityTiles[k + 1..];
      DecisionsFirst(snap, key, cityTiles[k..], |cityTiles|, unitsCnt, unitsCap);
      var decision := DecideTile(snap, weight, cityTile, |cityTiles|, unitsCnt, unitsCap);
      ghost var rest := CityDecisions(snap, key, cityTiles[k + 1..], |cityTiles|, CountAfter(decision, unitsCnt), unitsCap);
      if decision.Some? {
        assert actions + CityDecisions(snap, key, cityTiles[k..], |cityTiles|, unitsCnt, unitsCap)
               == (actions + [decision.value]) + rest;
        actions := actions + [decision.value];
        if decision.value.BuildWorker? {
          unitsCnt := unitsCnt + 1;
        }
      }
      k := k + 1;
    }
    assert cityTiles[k..] == [];
  }

  /** One pass of the loop body of `make_city_actions`; each `continue` of
      the source is a return here. */
  method DecideTile(snap: Snapshot, weight: LuxFindCluster.Weight, cityTile: CityTile,
                    total: int, unitsCnt: int, unitsCap: int) returns (decision: Option<CityAction>)
    requires snap.workerCooldown > 0
    ensures decision == Decide(snap, ClusterKey(snap, weight), cityTile, total, unitsCnt, unitsCap)
  {
    if !TileCanAct(cityTile) {
      return None;
    }
    var unitLimitExceeded := unitsCnt >= unitsCap;
    if snap.researchedUranium && unitLimitExceeded {
      return None;
    }
    if !snap.researchedUranium && snap.turnsToNight < 6 {
      return Some(Research(cityTile));
    }
    if !snap.researchedCoal && total > 4 && total % 2 == 1 {
      return Some(Research(cityTile));
    }
    var bestPosition, bestCellValue := LuxFindCluster.FindBestCluster(
      snap.fuelMatrix, snap.turnsToNight, snap.workerCooldown, cityTile.pos, weight, DefaultMultiplier);
    if !unitLimitExceeded && bestCellValue > 0.0 {
      return Some(BuildWorker(cityTile));
    }
    if !snap.researchedUranium {
      return Some(Research(cityTile));
    }
    return None;
  }

  /** What `make_city_actions` promises for the whole turn: each city tile acts
      at most once and only when it can, and better-placed tiles act first. */
  lemma CityActionsPerTile(snap: Snapshot, unitsCount: nat, weight: LuxFindCluster.Weight)
    requires snap.workerCooldown > 0
    ensures var key := ClusterKey(snap, weight);
            var r := CityDecisions(snap, key, SortDescending(key, snap.cityTiles), |snap.cityTiles|, unitsCount, |snap.cityTiles|);
            && (forall t :: multiset(ActionTiles(r))[t] <= if TileCanAct(t) then multiset(snap.cityTiles)[t] else 0)
            && (forall j :: 0 <= j < |r| ==> TileCanAct(r[j].tile))
            && Descending(key, ActionTiles(r))
  {
    var key := ClusterKey(snap, weight);
    var order := SortDescending(key, snap.cityTiles);
    var total := |snap.cityTiles|;
    DecisionsFromActingTiles(snap, key, order, total, unitsCount, total);
    DecisionsKeepOrder(snap, key, order, total, unitsCount, total);
    ActingSubset(order);
  }

  /** The unit count never passes the cap through builds, before uranium every
      tile that can act does something, and with coal and uranium researched
      the tiles only build. */
  lemma CityActionsCounts(snap: Snapshot, unitsCount: nat, weight: LuxFindCluster.Weight)
    requires snap.workerCooldown > 0
    ensures var key := ClusterKey(snap, weight);
            var r := CityDecisions(snap, key, SortDescending(key, snap.cityTiles), |snap.cityTiles|, unitsCount, |snap.cityTiles|);
            && unitsCount + Builds(r) <= Max(unitsCount, |snap.cityTiles|)
            && (!snap.researchedUranium ==> |r| == |Acting(snap.cityTiles)|)
            && (!snap.researchedUranium && snap.turnsToNight < 6 ==> Builds(r) == 0)
            && (snap.researchedCoal && snap.researchedUranium ==> Builds(r) == |r|)
  {
    var key := ClusterKey(snap, weight);
    var order := SortDescending(key, snap.cityTiles);
    var total := |snap.cityTiles|;
    BuildsWithinCap(snap, key, order, total, unitsCount, total);
    if !snap.researchedUranium {
      EveryTileActsBeforeUranium(snap, key, order, total, unitsCount, total);
      ActingCount(order, snap.cityTiles);
    }
    if snap.researchedCoal && snap.researchedUranium {
      OnlyBuildsWhenResearched(snap, key, order, total, unitsCount, total);
    }
  }

  // ---------------------------------------------------------------------------
  // make_unit_missions

  /** The best cluster's position around `pos` for a distance multiplier. */
  function ClusterTarget(snap: Snapshot, weight: LuxFindCluster.Weight, pos: Pos, mult: real): Pos
    requires snap.workerCooldown > 0
  {
    var range := LuxFindCluster.TravelRange(snap.turnsToNight, snap.workerCooldown);
    LuxFindCluster.BestCluster(snap.fuelMatrix, pos, range, weight, mult).0
  }

  /** What the planner does with one unit: nothing, give it a (new) mission,
      or hit the case where a full unit should build a city but no empty tile
      exists, where the source stores a mission without a target. */
  datatype Plan = Unchanged | Assign(mission: Mission) | NoBuildSite

  predicate OnMap(snap: Snapshot, units: seq<Unit>) {
    forall i :: 0 <= i < |units| ==> InGrid(units[i].pos.x, units[i].pos.y, snap.width, snap.height)
  }

  /** The branches of the loop body of `make_unit_missions` for unit `u`, with
      the distance multipliers drawn for a fresh unit and for a relocation. */
  function PlanFor(snap: Snapshot, weight: LuxFindCluster.Weight, u: Unit, entries: map<UnitId, Mission>,
                   freshMult: real, relocateMult: real): Plan
    requires ValidSnapshot(snap) && InGrid(u.pos.x, u.pos.y, snap.width, snap.height)
  {
    if !CanAct(u) then Unchanged
    else if u.id in entries && u.pos == entries[u.id].target then Unchanged
    else if SpaceLeft(u) == 0 && LuxGame.NearestEmpty(snap.emptyTiles, snap.width, snap.height, u.pos).1 < snap.turnsToNight - 5 then
      var nearest := LuxGame.NearestEmpty(snap.emptyTiles, snap.width, snap.height, u.pos).0;
      if nearest.Some? then Assign(NewMission(u.id, nearest.value, BuildCityCommand(u.id))) else NoBuildSite
    else if u.id in entries then Unchanged
    else if snap.rateMatrix[u.pos.y][u.pos.x] >= 80 then Unchanged
    else if SpaceLeft(u) == WorkerCapacity then Assign(NewMission(u.id, ClusterTarget(snap, weight, u.pos, freshMult)))
    else if snap.fuelMatrix[u.pos.y][u.pos.x] < 20 then
      Assign(NewMission(u.id, ClusterTarget(snap, weight, u.pos, relocateMult), MoveCommand(u.id, Center)))
    else Unchanged
  }

  /** The store after one unit's plan. */
  function Apply(entries: map<UnitId, Mission>, p: Plan): map<UnitId, Mission> {
    if p.Assign? then entries[p.mission.unitId := p.mission] else entries
  }

  /** The store after planning for the first `k` units, and whether one of
      them met `NoBuildSite`. */
  function Planned(snap: Snapshot, weight: LuxFindCluster.Weight, units: seq<Unit>, entries: map<UnitId, Mission>,
                   freshMult: nat -> real, relocateMult: nat -> real, k: nat): (map<UnitId, Mission>, bool)
    requires ValidSnapshot(snap) && OnMap(snap, units) && k <= |units|
  {
    if k == 0 then (entries, false)
    else
      var (before, failed) := Planned(snap, weight, units, entries, freshMult, relocateMult, k - 1);
      var p := PlanFor(snap, weight, units[k - 1], before, freshMult(k - 1), relocateMult(k - 1));
      (Apply(before, p), failed || p.NoBuildSite?)
  }

  /** One pass of the loop body of `make_unit_missions`; each `continue` of the
      source is a return here. */
  method PlanUnit(snap: Snapshot, weight: LuxFindCluster.Weight, unit: Unit, missions: Missions,
                  freshMult: real, relocateMult: real) returns (noBuildSite: bool)
    requires ValidSnapshot(snap) && InGrid(unit.pos.x, unit.pos.y, snap.width, snap.height) && missions.Valid()
    modifies missions
    ensures missions.Valid()
    ensures var p := PlanFor(snap, weight, unit, old(missions.entries), freshMult, relocateMult);
            missions.entries == Apply(old(missions.entries), p) && noBuildSite == p.NoBuildSite?
  {
    noBuildSite := false;
    if !CanAct(unit) {
      return;
    }
    if unit.id in missions.entries && unit.pos == missions.entries[unit.id].target {
      return;
    }
    if SpaceLeft(unit) == 0 {
      var nearestPosition, nearestDistance := LuxGame.NearestEmptyTile(snap.emptyTiles, snap.width, snap.height, unit.pos);
      if nearestDistance < snap.turnsToNight - 5 {
        if nearestPosition.Some? {
          missions.Add(NewMission(unit.id, nearestPosition.value, BuildCityCommand(unit.id)));
        } else {
          noBuildSite := true;
        }
        return;
      }
    }
    if unit.id in missions.entries {
      return;
    }
    if snap.rateMatrix[unit.pos.y][unit.pos.x] >= 80 {
      return;
    }
    if SpaceLeft(unit) == WorkerCapacity {
      var bestPosition, bestCellValue := LuxFindCluster.FindBestCluster(
        snap.fuelMatrix, snap.turnsToNight, snap.workerCooldown, unit.pos, weight, freshMult);
      missions.Add(NewMission(unit.id, bestPosition));
      return;
    }
    if snap.fuelMatrix[unit.pos.y][unit.pos.x] < 20 {
      var bestPosition, bestCellValue := LuxFindCluster.FindBestCluster(
        snap.fuelMatrix, snap.turnsToNight, snap.workerCooldown, unit.pos, weight, relocateMult);
      missions.Add(NewMission(unit.id, bestPosition, MoveCommand(unit.id, Center)));
      return;
    }
  }

  /** `make_unit_missions`: plan for every unit in order, then prune the store
      with the player's units and the two players' city tiles. `ok` is false
      when a full unit found no empty tile although the map is small enough to
      make the distance test pass; the source then stores a mission without a
      target, which fails inside `cleanup`, so the model stops before it. */
  method MakeUnitMissions(game: Game, missions: Missions, weight: LuxFindCluster.Weight,
                          freshMult: nat -> real, relocateMult: nat -> real) returns (ok: bool)
    requires ValidSnapshot(game.snap) && OnMap(game.snap, game.units) && missions.Valid()
    modifies missions
    ensures missions.Valid()
    ensures var (planned, failed) := Planned(game.snap, weight, game.units, old(missions.entries), freshMult, relocateMult, |game.units|);
            && ok == !failed
            && missions.entries == if ok then Pruned(planned, ById(game.units), game.snap.ownCityTiles, game.snap.oppCityTiles)
                                   else planned
  {
    var units := game.units;
    var snap := game.snap;
    var failed := false;
    for i := 0 to |units|
      invariant missions.Valid()
      invariant (missions.entries, failed) == Planned(snap, weight, units, old(missions.entries), freshMult, relocateMult, i)
    {
      var noBuildSite := PlanUnit(snap, weight, units[i], missions, freshMult(i), relocateMult(i));
      failed := failed || noBuildSite;
    }
    if failed {
      return false;
    }
    missions.Cleanup(ById(units), snap.ownCityTiles, snap.oppCityTiles);
    return true;
  }

  /** A unit that cannot act, or already stands on its mission target, is
      left alone; any mission the planner writes belongs to the unit and
      starts with no delays. */
  lemma PlanForSkips(snap: Snapshot, weight: LuxFindCluster.Weight, u: Unit, entries: map<UnitId, Mission>,
                     freshMult: real, relocateMult: real)
    requires ValidSnapshot(snap) && InGrid(u.pos.x, u.pos.y, snap.width, snap.height)
    ensures var p := PlanFor(snap, weight, u, entries, freshMult, relocateMult);
            && (!CanAct(u) ==> p == Unchanged)
            && (u.id in entries && u.pos == entries[u.id].target ==> p == Unchanged)
            && (p.Assign? ==> p.mission.unitId == u.id && p.mission.delays == 0)
  {
  }

  /** `BuildCityCommand` starts with "bcity"; the other actions the planner writes do not. */
  lemma ActionKinds(id: UnitId)
    ensures IsBuildCity(BuildCityCommand(id))
    ensures !IsBuildCity("") && !IsBuildCity(MoveCommand(id, Center))
  {
    assert BuildCityCommand(id)[..5] == "bcity";
    assert MoveCommand(id, Center)[0] == 'm';
    assert Head(MoveCommand(id, Center), 5)[0] == 'm';
  }

  /** A full unit that can act, is off its target and has an empty tile
      closer than `turns_to_night - 5` is sent to build a city on the nearest
      empty tile (the first in row-major order among equally near ones),
      whatever mission it had. */
  lemma PlanForBuildsCity(snap: Snapshot, weight: LuxFindCluster.Weight, u: Unit, entries: map<UnitId, Mission>,
                          freshMult: real, relocateMult: real, c: Pos)
    requires ValidSnapshot(snap) && InGrid(u.pos.x, u.pos.y, snap.width, snap.height)
    requires CanAct(u) && !(u.id in entries && u.pos == entries[u.id].target) && SpaceLeft(u) == 0
    requires LuxGame.IsEmptyAt(snap.emptyTiles, snap.width, snap.height, c) && Distance(c, u.pos) < snap.turnsToNight - 5
    ensures var p := PlanFor(snap, weight, u, entries, freshMult, relocateMult);
            && p.Assign? && p.mission.action == BuildCityCommand(u.id) && IsBuildCity(p.mission.action)
            && var t := p.mission.target;
               && LuxGame.IsEmptyAt(snap.emptyTiles, snap.width, snap.height, t)
               && Distance(t, u.pos) <= Distance(c, u.pos)
               && (Distance(t, u.pos) == Distance(c, u.pos) ==> t == c || LuxGame.Before(t, c.x, c.y))
  {
    LuxGame.NearestEmptyIsNearest(snap.emptyTiles, snap.width, snap.height, u.pos);
    ActionKinds(u.id);
    var (nearest, distance) := LuxGame.NearestEmpty(snap.emptyTiles, snap.width, snap.height, u.pos);
    assert nearest.Some?;
    var t := nearest.value;
    if Distance(t, u.pos) == Distance(c, u.pos) && t != c && !LuxGame.Before(t, c.x, c.y) {
      assert LuxGame.Before(c, t.x, t.y);
    }
  }

  /** An existing mission is only ever replaced by that build-city override:
      the planner touches a unit with a mission only when the unit is full,
      and then either sends it to build or finds no empty tile at all. */
  lemma PlanForKeepsExisting(snap: Snapshot, weight: LuxFindCluster.Weight, u: Unit, entries: map<UnitId, Mission>,
                             freshMult: real, relocateMult: real)
    requires ValidSnapshot(snap) && InGrid(u.pos.x, u.pos.y, snap.width, snap.height)
    requires u.id in entries
    ensures var p := PlanFor(snap, weight, u, entries, freshMult, relocateMult);
            && (p.Assign? ==> SpaceLeft(u) == 0 && IsBuildCity(p.mission.action)
                              && LuxGame.IsEmptyAt(snap.emptyTiles, snap.width, snap.height, p.mission.target))
            && (p.NoBuildSite? ==> SpaceLeft(u) == 0 && forall c :: !LuxGame.IsEmptyAt(snap.emptyTiles, snap.width, snap.height, c))
  {
    LuxGame.NearestEmptyIsNearest(snap.emptyTiles, snap.width, snap.height, u.pos);
    ActionKinds(u.id);
  }

  /** Any other mission sends the unit to the best cluster in its travel
      range: a fresh unit with no action, a starving unit with a stay-put
      command; with no cluster in range the target is the unit's own tile. */
  lemma PlanForClusterTarget(snap: Snapshot, weight: LuxFindCluster.Weight, u: Unit, entries: map<UnitId, Mission>,
                             freshMult: real, relocateMult: real)
    requires ValidSnapshot(snap) && InGrid(u.pos.x, u.pos.y, snap.width, snap.height)
    ensures var p := PlanFor(snap, weight, u, entries, freshMult, relocateMult);
            var range := LuxFindCluster.TravelRange(snap.turnsToNight, snap.workerCooldown);
            p.Assign? && !IsBuildCity(p.mission.action) ==>
              && u.id !in entries && CanAct(u)
              && snap.rateMatrix[u.pos.y][u.pos.x] < 80
              && (p.mission.action == "" <==> SpaceLeft(u) == WorkerCapacity)
              && (p.mission.action != "" ==> p.mission.action == MoveCommand(u.id, Center)
                                             && snap.fuelMatrix[u.pos.y][u.pos.x] < 20)
              && var t := p.mission.target;
                 (t == u.pos && forall c: Pos :: !LuxFindCluster.IsCandidate(snap.fuelMatrix, u.pos, range, c.x, c.y))
                 || LuxFindCluster.IsCandidate(snap.fuelMatrix, u.pos, range, t.x, t.y)
  {
    var p := PlanFor(snap, weight, u, entries, freshMult, relocateMult);
    var range := LuxFindCluster.TravelRange(snap.turnsToNight, snap.workerCooldown);
    ActionKinds(u.id);
    LuxFindCluster.BestClusterIsArgmax(snap.fuelMatrix, u.pos, range, weight, freshMult);
    LuxFindCluster.BestClusterIsArgmax(snap.fuelMatrix, u.pos, range, weight, relocateMult);
    assert MoveCommand(u.id, Center) != "";
  }

  /** PlanFor looks at the store only through the unit's own entry. */
  lemma PlanForLocal(snap: Snapshot, weight: LuxFindCluster.Weight, u: Unit, e1: map<UnitId, Mission>, e2: map<UnitId, Mission>,
                     freshMult: real, relocateMult: real)
    requires ValidSnapshot(snap) && InGrid(u.pos.x, u.pos.y, snap.width, snap.height)
    requires (u.id in e1 <==> u.id in e2) && (u.id in e1 ==> e1[u.id] == e2[u.id])
    ensures PlanFor(snap, weight, u, e1, freshMult, relocateMult) == PlanFor(snap, weight, u, e2, freshMult, relocateMult)
  {
  }

  /** Planning for the first `k` units leaves the entries of every other id untouched. */
  lemma {:induction false} PlannedUntouched(snap: Snapshot, weight: LuxFindCluster.Weight, units: seq<Unit>,
                                            entries: map<UnitId, Mission>, freshMult: nat -> real, relocateMult: nat -> real,
                                            k: nat, id: UnitId)
    requires ValidSnapshot(snap) && OnMap(snap, units) && k <= |units|
    requires forall i :: 0 <= i < k ==> units[i].id != id
    ensures var planned := Planned(snap, weight, units, entries, freshMult, relocateMult, k).0;
            (id in planned <==> id in entries) && (id in entries ==> planned[id] == entries[id])
  {
    if k > 0 {
      PlannedUntouched(snap, weight, units, entries, freshMult, relocateMult, k - 1, id);
      var before := Planned(snap, weight, units, entries, freshMult, relocateMult, k - 1).0;
      PlanForSkips(snap, weight, units[k - 1], before, freshMult(k - 1), relocateMult(k - 1));
    }
  }

  /** The entry of `id` in the store `planned` is what plan `p` made of its
      entry in `entries`: the assigned mission, or the old entry (or none). */
  predicate Recorded(planned: map<UnitId, Mission>, entries: map<UnitId, Mission>, id: UnitId, p: Plan) {
    && (p.Assign? ==> id in planned && planned[id] == p.mission)
    && (!p.Assign? ==> (id in planned <==> id in entries) && (id in entries ==> planned[id] == entries[id]))
  }

  /** Applying a plan for another unit keeps what was recorded for `id`. */
  lemma RecordedKept(before: map<UnitId, Mission>, entries: map<UnitId, Mission>, id: UnitId, q: Plan, p: Plan)
    requires Recorded(before, entries, id, q)
    requires p.Assign? ==> p.mission.unitId != id
    ensures Recorded(Apply(before, p), entries, id, q)
  {
  }

  /** With distinct unit ids, each unit is planned against the store as it was
      at the start, and its entry afterwards is what its own plan made of it. */
  lemma {:induction false} PlannedPerUnit(snap: Snapshot, weight: LuxFindCluster.Weight, units: seq<Unit>,
                                          entries: map<UnitId, Mission>, freshMult: nat -> real, relocateMult: nat -> real, k: nat)
    requires ValidSnapshot(snap) && OnMap(snap, units) && k <= |units| && DistinctIds(units)
    ensures var planned := Planned(snap, weight, units, entries, freshMult, relocateMult, k).0;
            forall i :: 0 <= i < k ==>
              Recorded(planned, entries, units[i].id, PlanFor(snap, weight, units[i], entries, freshMult(i), relocateMult(i)))
  {
    if k > 0 {
      PlannedPerUnit(snap, weight, units, entries, freshMult, relocateMult, k - 1);
      var before := Planned(snap, weight, units, entries, freshMult, relocateMult, k - 1).0;
      var u := units[k - 1];
      var p := PlanFor(snap, weight, u, before, freshMult(k - 1), relocateMult(k - 1));
      assert Planned(snap, weight, units, entries, freshMult, relocateMult, k).0 == Apply(before, p);
      PlannedUntouched(snap, weight, units, entries, freshMult, relocateMult, k - 1, u.id);
      PlanForLocal(snap, weight, u, before, entries, freshMult(k - 1), relocateMult(k - 1));
      PlanForSkips(snap, weight, u, entries, freshMult(k - 1), relocateMult(k - 1));
      forall i | 0 <= i < k
        ensures Recorded(Apply(before, p), entries, units[i].id,
                         PlanFor(snap, weight, units[i], entries, freshMult(i), relocateMult(i)))
      {
        if i < k - 1 {
          assert units[i].id != u.id;
          RecordedKept(before, entries, units[i].id, PlanFor(snap, weight, units[i], entries, freshMult(i), relocateMult(i)), p);
        }
      }
    }
  }

  /** With distinct unit ids, planning fails exactly when some unit, judged
      against the store as it was at the start, meets `NoBuildSite`. */
  lemma {:induction false} PlannedFails(snap: Snapshot, weight: LuxFindCluster.Weight, units: seq<Unit>,
                                        entries: map<UnitId, Mission>, freshMult: nat -> real, relocateMult: nat -> real, k: nat)
    requires ValidSnapshot(snap) && OnMap(snap, units) && k <= |units| && DistinctIds(units)
    ensures Planned(snap, weight, units, entries, freshMult, relocateMult, k).1 <==>
            exists i :: 0 <= i < k && PlanFor(snap, weight, units[i], entries, freshMult(i), relocateMult(i)).NoBuildSite?
  {
    if k > 0 {
      PlannedFails(snap, weight, units, entries, freshMult, relocateMult, k - 1);
      var before := Planned(snap, weight, units, entries, freshMult, relocateMult, k - 1).0;
      var u := units[k - 1];
      PlannedUntouched(snap, weight, units, entries, freshMult, relocateMult, k - 1, u.id);
      PlanForLocal(snap, weight, u, before, entries, freshMult(k - 1), relocateMult(k - 1));
      var p := PlanFor(snap, weight, u, entries, freshMult(k - 1), relocateMult(k - 1));
      if p.NoBuildSite? {
        assert PlanFor(snap, weight, units[k - 1], entries, freshMult(k - 1), relocateMult(k - 1)).NoBuildSite?;
      }
    }
  }
}
