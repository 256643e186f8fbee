/** Unit movement of lux/actions.py: `attempt_direction_to`, which picks a free
    neighbouring tile closest to a target and claims it in the occupied set, and
    `make_unit_actions`, which sweeps over the units until no new command comes out. */
module LuxUnitActions {
  import opened LuxBasics
  import opened LuxState
  import opened LuxMissions

  /** A random reordering of `[NORTH, EAST, SOUTH, WEST]`. */
  predicate IsShuffle(order: seq<Direction>) {
    && |order| == 4
    && (forall d :: d in order <==> d != Center)
    && (forall i, j :: 0 <= i < j < |order| ==> order[i] != order[j])
  }

  /** What a direction choice depends on: the unit's tile, its target, the
      occupied tiles, the player's city tiles, the wood the unit carries and
      the turns left until dawn. */
  datatype Approach = Approach(from: Pos, target: Pos, occupied: set<Pos>, own: set<Pos>, wood: nat, turnsToDawn: int)

  function ApproachFor(u: Unit, target: Pos, occupied: set<Pos>, snap: Snapshot): Approach {
    Approach(u.pos, target, occupied, snap.ownCityTiles, u.cargo.wood, snap.turnsToDawn)
  }

  /** A tile the unit may step on: not occupied, and not one of the player's
      city tiles while the unit carries at least `min(11, turns_to_dawn) * 4` wood. */
  predicate Admissible(a: Approach, p: Pos) {
    p !in a.occupied && !(p in a.own && a.wood >= Min(11, a.turnsToDawn) * 4)
  }

  /** The search starts from this distance, so only nearer tiles are ever chosen. */
  const InitialDistance: int := 1000

  function StepDistance(a: Approach, d: Direction): nat {
    Distance(a.target, Translate(a.from, d))
  }

  /** A direction the unit could be sent in. */
  predicate Eligible(a: Approach, d: Direction) {
    d != Center && Admissible(a, Translate(a.from, d)) && StepDistance(a, d) < InitialDistance
  }

  /** The running best direction of the search and its distance to the target. */
  datatype Choice = Choice(dir: Direction, dist: int)

  function ChoiceStep(a: Approach, d: Direction, acc: Choice): Choice {
    var q := Translate(a.from, d);
    if Admissible(a, q) && Distance(a.target, q) < acc.dist then Choice(d, Distance(a.target, q)) else acc
  }

  /** The search over the first `k` directions of `order`. */
  function ChooseAmong(a: Approach, order: seq<Direction>, k: nat): Choice
    requires k <= |order|
  {
    if k == 0 then Choice(Center, InitialDistance)
    else ChoiceStep(a, order[k - 1], ChooseAmong(a, order, k - 1))
  }

  function ChosenDirection(a: Approach, order: seq<Direction>): Direction {
    ChooseAmong(a, order, |order|).dir
  }

  /** What the search over the first `k` directions has established. */
  ghost predicate ChoiceSoFar(a: Approach, order: seq<Direction>, k: nat, acc: Choice)
    requires IsShuffle(order) && k <= |order|
  {
    && (acc.dir == Center ==> acc.dist == InitialDistance && forall j :: 0 <= j < k ==> !Eligible(a, order[j]))
    && (acc.dir != Center ==>
          && acc.dir in order[..k] && Eligible(a, acc.dir) && acc.dist == StepDistance(a, acc.dir)
          && (forall j :: 0 <= j < k && Eligible(a, order[j]) ==> acc.dist <= StepDistance(a, order[j]))
          && (forall j, l :: 0 <= j < l < k && order[l] == acc.dir && Eligible(a, order[j]) ==>
                acc.dist < StepDistance(a, order[j])))
  }

  lemma {:induction false} ChooseAmongSound(a: Approach, order: seq<Direction>, k: nat)
    requires IsShuffle(order) && k <= |order|
    ensures ChoiceSoFar(a, order, k, ChooseAmong(a, order, k))
  {
    if k > 0 {
      ChooseAmongSound(a, order, k - 1);
      var acc := ChooseAmong(a, order, k - 1);
      var d := order[k - 1];
      assert d in order;
      assert order[..k] == order[..k - 1] + [d];
      if ChooseAmong(a, order, k) == acc {
        KeepStepSound(a, order, k, acc);
      } else {
        TakeStepSound(a, order, k, acc);
      }
    }
  }

  /** The step that keeps the running best. */
  lemma KeepStepSound(a: Approach, order: seq<Direction>, k: nat, acc: Choice)
    requires IsShuffle(order) && 0 < k <= |order|
    requires order[k - 1] != Center && order[..k] == order[..k - 1] + [order[k - 1]]
    requires ChoiceSoFar(a, order, k - 1, acc) && ChoiceStep(a, order[k - 1], acc) == acc
    ensures ChoiceSoFar(a, order, k, acc)
  {
    if acc.dir != Center {
      var l' :| 0 <= l' < k - 1 && order[..k - 1][l'] == acc.dir;
      assert order[l'] == acc.dir;
      assert order[k - 1] != acc.dir;
    }
  }

  /** The step that replaces the running best by a strictly nearer direction. */
  lemma TakeStepSound(a: Approach, order: seq<Direction>, k: nat, acc: Choice)
    requires IsShuffle(order) && 0 < k <= |order|
    requires order[k - 1] != Center && order[..k] == order[..k - 1] + [order[k - 1]]
    requires ChoiceSoFar(a, order, k - 1, acc) && ChoiceStep(a, order[k - 1], acc) != acc
    ensures ChoiceSoFar(a, order, k, ChoiceStep(a, order[k - 1], acc))
  {
    var d := order[k - 1];
    var r := ChoiceStep(a, d, acc);
    assert r == Choice(d, StepDistance(a, d)) && Eligible(a, d);
    assert r.dir in order[..k] by { assert order[..k][k - 1] == d; }
    forall j, l | 0 <= j < l < k && order[l] == d && Eligible(a, order[j])
      ensures r.dist < StepDistance(a, order[j])
    {
      assert l == k - 1;
    }
  }

  /** `attempt_direction_to` chooses CENTER exactly when no neighbour is
      eligible; otherwise an eligible neighbour strictly nearest to the target,
      the earliest of the shuffled order among equally near ones. The chosen
      tile is never occupied. */
  lemma ChosenDirectionIsNearest(a: Approach, order: seq<Direction>)
    requires IsShuffle(order)
    ensures var c := ChosenDirection(a, order);
            && (c == Center <==> forall d :: !Eligible(a, d))
            && (c != Center ==> Eligible(a, c) && Translate(a.from, c) !in a.occupied)
            && (c != Center ==> forall d :: Eligible(a, d) ==> StepDistance(a, c) <= StepDistance(a, d))
            && (c != Center ==> forall j, l :: 0 <= j < l < |order| && order[l] == c && Eligible(a, order[j]) ==>
                  StepDistance(a, c) < StepDistance(a, order[j]))
  {
    ChooseAmongSound(a, order, |order|);
    assert order[..|order|] == order;
    var c := ChosenDirection(a, order);
    forall d | Eligible(a, d)
      ensures exists j :: 0 <= j < |order| && order[j] == d
    {
      assert d in order;
    }
  }

  /** `attempt_direction_to` for unit `i`: search the shuffled directions; on a
      move, free the unit's tile, claim the new one unless it is a city tile of
      the player, and raise the unit's cooldown by 2. */
  method AttemptDirectionTo(game: Game, i: nat, target: Pos, order: seq<Direction>) returns (dir: Direction)
    requires i < |game.units| && IsShuffle(order)
    modifies game
    ensures dir == ChosenDirection(ApproachFor(old(game.units[i]), target, old(game.occupied), game.snap), order)
    ensures dir == Center ==> game.units == old(game.units) && game.occupied == old(game.occupied)
    ensures dir != Center ==>
              var u := old(game.units[i]);
              var q := Translate(u.pos, dir);
              && game.units == old(game.units)[i := u.(cooldown := u.cooldown + 2)]
              && game.occupied == (old(game.occupied) - {u.pos}) + (if q in game.snap.ownCityTiles then {} else {q})
  {
    var unit := game.units[i];
    ghost var a := ApproachFor(unit, target, game.occupied, game.snap);
    var closestDist := InitialDistance;
    var closestDir := Center;
    var closestPos := unit.pos;
    for k := 0 to |order|
      invariant Choice(closestDir, closestDist) == ChooseAmong(a, order, k)
      invariant closestPos == Translate(unit.pos, closestDir)
    {
      var direction := order[k];
      var newpos := Translate(unit.pos, direction);
      var dist := Distance(target, newpos);
      if newpos in game.occupied {
        continue;
      }
      if newpos in game.snap.ownCityTiles && unit.cargo.wood >= Min(11, game.snap.turnsToDawn) * 4 {
        continue;
      }
      if dist < closestDist {
        closestDir := direction;
        closestDist := dist;
        closestPos := newpos;
      }
    }
    if closestDir != Center {
      game.occupied := game.occupied - {unit.pos};
      if closestPos !in game.snap.ownCityTiles {
        game.occupied := game.occupied + {closestPos};
      }
      game.units := game.units[i := unit.(cooldown := unit.cooldown + 2)];
    }
    dir := closestDir;
  }

  /** What happened to a unit in pass `pass` of the sweep: it stood on its
      target (and its mission's action is emitted unless empty), or it stepped
      in direction `dir`, chosen against the occupied set `occupied` of that moment. */
  datatype Event = Arrived(unit: nat, action: string, pass: nat) | Moved(unit: nat, dir: Direction, pass: nat, occupied: set<Pos>)

  predicate InRange(log: seq<Event>, n: int) {
    forall j :: 0 <= j < |log| ==> log[j].unit < n
  }

  /** The commands an event appends to the turn's action list. */
  function Emits(e: Event, units: seq<Unit>): (r: seq<string>)
    requires e.unit < |units|
    ensures |r| <= 1
    ensures e.Moved? ==> r == [MoveCommand(units[e.unit].id, e.dir)]
    ensures e.Arrived? ==> (r == [] <==> e.action == "")
  {
    match e
    case Arrived(_, action, _) => if action == "" then [] else [action]
    case Moved(i, d, _, _) => [MoveCommand(units[i].id, d)]
  }

  /** The action list a log of events produces. */
  function Output(log: seq<Event>, units: seq<Unit>): (r: seq<string>)
    requires InRange(log, |units|)
    ensures |r| <= |log|
  {
    if log == [] then []
    else Output(log[..|log| - 1], units) + Emits(log[|log| - 1], units)
  }

  /** Every unit appears in at most one event. */
  predicate OncePerUnit(log: seq<Event>) {
    forall j, l :: 0 <= j < l < |log| ==> log[j].unit != log[l].unit
  }

  /** The event follows from the units and missions at the start of the sweep:
      the unit could act and had a mission; it arrived on that mission's target
      with that mission's action, or it was off target and stepped in the
      direction `attempt_direction_to` chose. */
  ghost predicate Justified(e: Event, units0: seq<Unit>, entries0: map<UnitId, Mission>, snap: Snapshot,
                            orders: (nat, nat) -> seq<Direction>)
  {
    && e.unit < |units0|
    && var u := units0[e.unit];
    && CanAct(u) && u.id in entries0
    && (match e
        case Arrived(_, action, _) => entries0[u.id].target == u.pos && action == entries0[u.id].action
        case Moved(_, d, p, occ) =>
          && entries0[u.id].target != u.pos && d != Center
          && d == ChosenDirection(ApproachFor(u, entries0[u.id].target, occ, snap), orders(p, e.unit)))
  }

  function MovedUnits(log: seq<Event>): set<int> {
    set j | 0 <= j < |log| && log[j].Moved? :: log[j].unit
  }

  function ArrivedIds(log: seq<Event>, units0: seq<Unit>): set<UnitId> {
    set j | 0 <= j < |log| && log[j].Arrived? && log[j].unit < |units0| :: units0[log[j].unit].id
  }

  /** The units with the cooldown of every mover raised by 2. */
  function AfterMoves(units0: seq<Unit>, moved: set<int>): (r: seq<Unit>)
    ensures |r| == |units0|
  {
    seq(|units0|, i requires 0 <= i < |units0| =>
      if i in moved then units0[i].(cooldown := units0[i].cooldown + 2) else units0[i])
  }

  /** The units the sweep still has to deal with: they can act and have a mission. */
  function Active(units: seq<Unit>, entries: map<UnitId, Mission>): set<int> {
    set i | 0 <= i < |units| && CanAct(units[i]) && units[i].id in entries
  }

  /** The state of the sweep after the events of `log`. */
  ghost predicate SweepState(units0: seq<Unit>, entries0: map<UnitId, Mission>, snap: Snapshot,
                             orders: (nat, nat) -> seq<Direction>, log: seq<Event>,
                             units: seq<Unit>, entries: map<UnitId, Mission>)
  {
    && InRange(log, |units0|)
    && OncePerUnit(log)
    && (forall j :: 0 <= j < |log| ==> Justified(log[j], units0, entries0, snap, orders))
    && units == AfterMoves(units0, MovedUnits(log))
    && entries == entries0 - ArrivedIds(log, units0)
    && (forall j :: 0 <= j < |log| ==> log[j].unit !in Active(units, entries))
  }

  /** The tile a mover steps onto. */
  function Dest(e: Event, units0: seq<Unit>): Pos
    requires e.Moved? && e.unit < |units0|
  {
    Translate(units0[e.unit].pos, e.dir)
  }

  /** Tiles claimed by movers: their destinations that are not city tiles of the player. */
  function Claimed(log: seq<Event>, units0: seq<Unit>, own: set<Pos>): set<Pos> {
    set j | 0 <= j < |log| && log[j].Moved? && log[j].unit < |units0| && Dest(log[j], units0) !in own
      :: Dest(log[j], units0)
  }

  /** No two movers step onto the same tile, unless it is a city tile of the player. */
  predicate DistinctClaims(log: seq<Event>, units0: seq<Unit>, own: set<Pos>)
    requires InRange(log, |units0|)
  {
    forall j, l :: 0 <= j < l < |log| && log[j].Moved? && log[l].Moved? && Dest(log[j], units0) !in own ==>
      Dest(log[j], units0) != Dest(log[l], units0)
  }

  /** The occupied set covers the tile of every unit that can act and is not on
      a city tile of the player, and no two such units share a tile. */
  ghost predicate Tracked(units: seq<Unit>, occupied: set<Pos>, own: set<Pos>) {
    && (forall i :: 0 <= i < |units| && CanAct(units[i]) && units[i].pos !in own ==> units[i].pos in occupied)
    && (forall i, j ::
          0 <= i < |units| && 0 <= j < |units| && i != j && CanAct(units[i]) && CanAct(units[j]) && units[i].pos !in own
          ==> units[i].pos != units[j].pos)
  }

  ghost predicate ClaimState(units0: seq<Unit>, log: seq<Event>, units: seq<Unit>, occupied: set<Pos>, own: set<Pos>)
    requires InRange(log, |units0|)
  {
    && Tracked(units, occupied, own)
    && Claimed(log, units0, own) <= occupied
    && (forall i :: 0 <= i < |units| && CanAct(units[i]) && units[i].pos !in own ==>
          units[i].pos !in Claimed(log, units0, own))
    && DistinctClaims(log, units0, own)
  }

  /** Unit `i` has nothing left to do: it cannot act, has no mission, or is
      off its target with every neighbouring tile ruled out. */
  ghost predicate Quiet(units: seq<Unit>, entries: map<UnitId, Mission>, occupied: set<Pos>, snap: Snapshot, i: int)
    requires 0 <= i < |units|
  {
    CanAct(units[i]) && units[i].id in entries ==>
      && units[i].pos != entries[units[i].id].target
      && forall d :: !Eligible(ApproachFor(units[i], entries[units[i].id].target, occupied, snap), d)
  }

  ghost predicate FixedPoint(units: seq<Unit>, entries: map<UnitId, Mission>, occupied: set<Pos>, snap: Snapshot) {
    forall i :: 0 <= i < |units| ==> Quiet(units, entries, occupied, snap, i)
  }

  /** A unit still to be dealt with has not moved, has no event and holds the mission it started with. */
  lemma ActiveUntouched(units0: seq<Unit>, entries0: map<UnitId, Mission>, snap: Snapshot,
                        orders: (nat, nat) -> seq<Direction>, log: seq<Event>,
                        units: seq<Unit>, entries: map<UnitId, Mission>, k: int)
    requires SweepState(units0, entries0, snap, orders, log, units, entries)
    requires k in Active(units, entries)
    ensures 0 <= k < |units0| && units[k] == units0[k] && k !in MovedUnits(log)
    ensures units[k].id in entries0 && entries[units[k].id] == entries0[units[k].id]
    ensures forall j :: 0 <= j < |log| ==> log[j].unit != k
  {
  }

  lemma OutputAppend(log: seq<Event>, e: Event, units0: seq<Unit>)
    requires InRange(log, |units0|) && e.unit < |units0|
    ensures InRange(log + [e], |units0|)
    ensures Output(log + [e], units0) == Output(log, units0) + Emits(e, units0)
  {
    assert (log + [e])[..|log|] == log;
  }

  /** Appending an event for a unit without one, justified by the initial state, keeps the log well formed. */
  lemma LogAppend(units0: seq<Unit>, entries0: map<UnitId, Mission>, snap: Snapshot,
                  orders: (nat, nat) -> seq<Direction>, log: seq<Event>, e: Event)
    requires InRange(log, |units0|) && OncePerUnit(log)
    requires forall j :: 0 <= j < |log| ==> Justified(log[j], units0, entries0, snap, orders)
    requires Justified(e, units0, entries0, snap, orders)
    requires forall j :: 0 <= j < |log| ==> log[j].unit != e.unit
    ensures InRange(log + [e], |units0|) && OncePerUnit(log + [e])
    ensures forall j :: 0 <= j < |log + [e]| ==> Justified((log + [e])[j], units0, entries0, snap, orders)
  {
    assert forall j :: 0 <= j < |log| ==> (log + [e])[j] == log[j];
  }

  lemma ArrivedIdsAppend(log: seq<Event>, e: Event, units0: seq<Unit>)
    requires e.Arrived? && e.unit < |units0|
    ensures ArrivedIds(log + [e], units0) == ArrivedIds(log, units0) + {units0[e.unit].id}
  {
    var log' := log + [e];
    assert forall j :: 0 <= j < |log| ==> log'[j] == log[j];
    assert log'[|log|] == e;
  }

  lemma ArriveState(units0: seq<Unit>, entries0: map<UnitId, Mission>, snap: Snapshot,
                    orders: (nat, nat) -> seq<Direction>, log: seq<Event>,
                    units: seq<Unit>, entries: map<UnitId, Mission>, k: int, pass: nat)
    requires SweepState(units0, entries0, snap, orders, log, units, entries)
    requires k in Active(units, entries) && entries[units[k].id].target == units[k].pos
    ensures 0 <= k < |units0| && units[k] == units0[k]
    ensures var e := Arrived(k, entries[units[k].id].action, pass);
            var entries' := entries - {units[k].id};
            && SweepState(units0, entries0, snap, orders, log + [e], units, entries')
            && Active(units, entries') < Active(units, entries)
  {
    ActiveUntouched(units0, entries0, snap, orders, log, units, entries, k);
    var id := units[k].id;
    var e := Arrived(k, entries[id].action, pass);
    var log' := log + [e];
    var entries' := entries - {id};
    assert Active(units, entries') <= Active(units, entries) - {k};
    LogAppend(units0, entries0, snap, orders, log, e);
    ArrivedIdsAppend(log, e, units0);
    assert forall j :: 0 <= j < |log| ==> log'[j] == log[j];
    assert MovedUnits(log') == MovedUnits(log);
  }

  /** An arrival claims no tile. */
  lemma ArriveClaims(units0: seq<Unit>, log: seq<Event>, e: Event, own: set<Pos>)
    requires InRange(log, |units0|) && e.Arrived? && e.unit < |units0|
    ensures InRange(log + [e], |units0|)
    ensures Claimed(log + [e], units0, own) == Claimed(log, units0, own)
    ensures DistinctClaims(log, units0, own) ==> DistinctClaims(log + [e], units0, own)
  {
    var log' := log + [e];
    assert forall j :: 0 <= j < |log| ==> log'[j] == log[j];
  }

  lemma MoveState(units0: seq<Unit>, entries0: map<UnitId, Mission>, snap: Snapshot,
                  orders: (nat, nat) -> seq<Direction>, log: seq<Event>,
                  units: seq<Unit>, entries: map<UnitId, Mission>, k: int, d: Direction, pass: nat, occ: set<Pos>)
    requires SweepState(units0, entries0, snap, orders, log, units, entries)
    requires k in Active(units, entries) && entries[units[k].id].target != units[k].pos
    requires d != Center && d == ChosenDirection(ApproachFor(units[k], entries[units[k].id].target, occ, snap), orders(pass, k))
    ensures 0 <= k < |units0|
    ensures var e := Moved(k, d, pass, occ);
            var units' := units[k := units[k].(cooldown := units[k].cooldown + 2)];
            && SweepState(units0, entries0, snap, orders, log + [e], units', entries)
            && Active(units', entries) < Active(units, entries)
  {
    ActiveUntouched(units0, entries0, snap, orders, log, units, entries, k);
    var e := Moved(k, d, pass, occ);
    var log' := log + [e];
    var units' := units[k := units[k].(cooldown := units[k].cooldown + 2)];
    assert Active(units', entries) <= Active(units, entries) - {k} by {
      forall i | i in Active(units', entries)
        ensures i in Active(units, entries) && i != k
      {
        assert units'[i] == units[i];
      }
    }
    LogAppend(units0, entries0, snap, orders, log, e);
    MovedUnitsAppend(log, e);
    assert ArrivedIds(log', units0) == ArrivedIds(log, units0) by {
      assert forall j :: 0 <= j < |log| ==> log'[j] == log[j];
    }
    assert units' == AfterMoves(units0, MovedUnits(log'));
  }

  lemma MovedUnitsAppend(log: seq<Event>, e: Event)
    requires e.Moved?
    ensures MovedUnits(log + [e]) == MovedUnits(log) + {e.unit}
  {
    var log' := log + [e];
    assert forall j :: 0 <= j < |log| ==> log'[j] == log[j];
    assert log'[|log|] == e;
  }

  /** A move adds its destination to the claimed tiles unless it is a city tile of the player. */
  lemma ClaimedAppend(log: seq<Event>, units0: seq<Unit>, own: set<Pos>, e: Event)
    requires e.Moved? && e.unit < |units0|
    ensures var q := Dest(e, units0);
            Claimed(log + [e], units0, own) == Claimed(log, units0, own) + (if q in own then {} else {q})
  {
    var log' := log + [e];
    var q := Dest(e, units0);
    assert forall j :: 0 <= j < |log| ==> log'[j] == log[j];
    assert log'[|log|] == e;
    forall p | p in Claimed(log', units0, own)
      ensures p in Claimed(log, units0, own) + (if q in own then {} else {q})
    {
      var j :| 0 <= j < |log'| && log'[j].Moved? && log'[j].unit < |units0| && Dest(log'[j], units0) !in own
               && Dest(log'[j], units0) == p;
      if j < |log| {
        assert log[j] == log'[j];
      }
    }
    forall p | p in Claimed(log, units0, own) + (if q in own then {} else {q})
      ensures p in Claimed(log', units0, own)
    {
      if p in Claimed(log, units0, own) {
        var j :| 0 <= j < |log| && log[j].Moved? && log[j].unit < |units0| && Dest(log[j], units0) !in own
                 && Dest(log[j], units0) == p;
        assert log'[j] == log[j];
      } else {
        assert Dest(log'[|log|], units0) == p;
      }
    }
  }

  /** A move keeps the claimed tiles inside the occupied set and apart from
      each other and from the units that can still act. */
  lemma MoveKeepsClaims(units0: seq<Unit>, log: seq<Event>, units: seq<Unit>, occ: set<Pos>, own: set<Pos>,
                        k: int, d: Direction, pass: nat)
    requires InRange(log, |units0|) && |units| == |units0|
    requires forall i :: 0 <= i < |units| ==> units[i].pos == units0[i].pos
    requires ClaimState(units0, log, units, occ, own)
    requires 0 <= k < |units| && CanAct(units[k]) && d != Center && Translate(units[k].pos, d) !in occ
    ensures var u := units[k];
            var q := Translate(u.pos, d);
            var log' := log + [Moved(k, d, pass, occ)];
            InRange(log', |units0|) &&
            ClaimState(units0, log', units[k := u.(cooldown := u.cooldown + 2)],
                       (occ - {u.pos}) + (if q in own then {} else {q}), own)
  {
    var u := units[k];
    var q := Translate(u.pos, d);
    var e := Moved(k, d, pass, occ);
    var log' := log + [e];
    var units' := units[k := u.(cooldown := u.cooldown + 2)];
    var occ' := (occ - {u.pos}) + (if q in own then {} else {q});
    assert forall j :: 0 <= j < |log| ==> log'[j] == log[j];
    assert Dest(e, units0) == q;
    var before := Claimed(log, units0, own);
    var after := Claimed(log', units0, own);
    ClaimedAppend(log, units0, own, e);
    assert u.pos !in before;
    assert after <= occ';
    forall i | 0 <= i < |units'| && CanAct(units'[i]) && units'[i].pos !in own
      ensures units'[i].pos in occ' && units'[i].pos !in after
    {
      assert i != k && units'[i] == units[i];
      assert units[i].pos != u.pos;
      assert units[i].pos in occ;
    }
    assert Tracked(units', occ', own);
    forall j, l | 0 <= j < l < |log'| && log'[j].Moved? && log'[l].Moved? && Dest(log'[j], units0) !in own
      ensures Dest(log'[j], units0) != Dest(log'[l], units0)
    {
      if l == |log| {
        assert Dest(log'[j], units0) in before;
      }
    }
  }

  /** A unit whose search returned CENTER, off its target, has nothing left to do. */
  lemma QuietAfterCenter(units: seq<Unit>, entries: map<UnitId, Mission>, occupied: set<Pos>, snap: Snapshot,
                         k: int, order: seq<Direction>)
    requires 0 <= k < |units| && units[k].id in entries && IsShuffle(order)
    requires units[k].pos != entries[units[k].id].target
    requires ChosenDirection(ApproachFor(units[k], entries[units[k].id].target, occupied, snap), order) == Center
    ensures Quiet(units, entries, occupied, snap, k)
  {
    ChosenDirectionIsNearest(ApproachFor(units[k], entries[units[k].id].target, occupied, snap), order);
  }

  function Indices(n: nat): (r: set<int>)
    ensures forall i :: i in r <==> 0 <= i < n
    ensures |r| == n
  {
    if n == 0 then {} else Indices(n - 1) + {n - 1}
  }

  lemma SubsetSize<T>(a: set<T>, b: set<T>)
    requires a <= b
    ensures |a| <= |b| && (a < b ==> |a| < |b|)
  {
    assert b == a + (b - a);
    if a < b {
      var x :| x in b - a;
    }
  }

  function UnitsOf(log: seq<Event>): set<int> {
    set j | 0 <= j < |log| :: log[j].unit
  }

  lemma {:induction false} UnitsOfSize(log: seq<Event>)
    requires OncePerUnit(log)
    ensures |UnitsOf(log)| == |log|
  {
    if log != [] {
      var p := log[..|log| - 1];
      var last := log[|log| - 1];
      assert forall j :: 0 <= j < |p| ==> p[j] == log[j];
      UnitsOfSize(p);
      assert UnitsOf(log) == UnitsOf(p) + {last.unit};
      assert last.unit !in UnitsOf(p);
    }
  }

  /** A log with at most one event per unit has at most as many events as there are units. */
  lemma LogSize(log: seq<Event>, n: nat)
    requires InRange(log, n) && OncePerUnit(log)
    ensures |log| <= n
  {
    UnitsOfSize(log);
    SubsetSize(UnitsOf(log), Indices(n));
  }

  /** Removing missions leaves a unit that had nothing left to do with nothing left to do. */
  lemma QuietShrink(units: seq<Unit>, entries: map<UnitId, Mission>, entries': map<UnitId, Mission>,
                    occupied: set<Pos>, snap: Snapshot, k: int)
    requires k <= |units|
    requires forall id :: id in entries' ==> id in entries && entries'[id] == entries[id]
    requires forall j :: 0 <= j < k ==> Quiet(units, entries, occupied, snap, j)
    ensures forall j :: 0 <= j < k ==> Quiet(units, entries', occupied, snap, j)
  {
    forall j | 0 <= j < k
      ensures Quiet(units, entries', occupied, snap, j)
    {
      assert Quiet(units, entries, occupied, snap, j);
    }
  }

  /** The occupied set after event `e`: a mover frees its tile and claims its
      destination unless that is a city tile of the player; an arrival changes nothing. */
  function OccStep(occupied: set<Pos>, e: Event, units0: seq<Unit>, own: set<Pos>): set<Pos> {
    if e.Moved? && e.unit < |units0| then
      var q := Dest(e, units0);
      (occupied - {units0[e.unit].pos}) + (if q in own then {} else {q})
    else occupied
  }

  /** The occupied set after the events of `log`, starting from `occ0`. */
  function OccAfter(occ0: set<Pos>, units0: seq<Unit>, own: set<Pos>, log: seq<Event>): set<Pos> {
    if log == [] then occ0
    else OccStep(OccAfter(occ0, units0, own, log[..|log| - 1]), log[|log| - 1], units0, own)
  }

  lemma OccAfterAppend(occ0: set<Pos>, units0: seq<Unit>, own: set<Pos>, log: seq<Event>, e: Event)
    ensures OccAfter(occ0, units0, own, log + [e]) == OccStep(OccAfter(occ0, units0, own, log), e, units0, own)
  {
    assert (log + [e])[..|log|] == log;
  }

  /** Event `e` comes before the visit of unit `i` in pass `p`. */
  predicate Precedes(e: Event, p: nat, i: int) {
    e.pass < p || (e.pass == p && e.unit < i)
  }

  /** The number of events of `log` that come before the visit of unit `i` in pass `p`. */
  function CountBefore(log: seq<Event>, p: nat, i: int): (n: nat)
    ensures n <= |log|
  {
    if log == [] then 0
    else CountBefore(log[..|log| - 1], p, i) + (if Precedes(log[|log| - 1], p, i) then 1 else 0)
  }

  lemma CountBeforeAppend(log: seq<Event>, e: Event, p: nat, i: int)
    requires !Precedes(e, p, i)
    ensures CountBefore(log + [e], p, i) == CountBefore(log, p, i)
  {
    assert (log + [e])[..|log|] == log;
  }

  lemma {:induction false} CountBeforeAll(log: seq<Event>, p: nat, i: int)
    requires forall j :: 0 <= j < |log| ==> Precedes(log[j], p, i)
    ensures CountBefore(log, p, i) == |log|
  {
    if log != [] {
      var init := log[..|log| - 1];
      assert forall j :: 0 <= j < |init| ==> init[j] == log[j];
      CountBeforeAll(init, p, i);
    }
  }

  /** Unit `i` has an event in pass `p`. */
  predicate HasEvent(log: seq<Event>, p: nat, i: int) {
    exists j :: 0 <= j < |log| && log[j].pass == p && log[j].unit == i
  }

  /** A unit the sweep visited in pass `p` without producing an event had
      nothing left to do at that moment, in the state the earlier events left. */
  ghost predicate SkippedQuiet(units0: seq<Unit>, entries0: map<UnitId, Mission>, occ0: set<Pos>, snap: Snapshot,
                               log: seq<Event>, p: nat, i: int)
    requires 0 <= i < |units0|
  {
    !HasEvent(log, p, i) ==>
      var before := log[..CountBefore(log, p, i)];
      Quiet(AfterMoves(units0, MovedUnits(before)), entries0 - ArrivedIds(before, units0),
            OccAfter(occ0, units0, snap.ownCityTiles, before), snap, i)
  }

  /** The log follows the sweep's visiting order up to unit `k` of pass `pass`:
      events come by pass and then by unit, each mover chose against the
      occupied set the earlier moves left, and every unit visited without an
      event had nothing left to do when it was visited. */
  ghost predicate Trace(units0: seq<Unit>, entries0: map<UnitId, Mission>, occ0: set<Pos>, snap: Snapshot,
                        log: seq<Event>, pass: nat, k: int)
  {
    && (forall j :: 0 <= j < |log| ==> Precedes(log[j], pass, k))
    && (forall j, l :: 0 <= j < l < |log| ==> Precedes(log[j], log[l].pass, log[l].unit))
    && (forall j :: 0 <= j < |log| && log[j].Moved? ==>
          log[j].occupied == OccAfter(occ0, units0, snap.ownCityTiles, log[..j]))
    && (forall p: nat, i :: 0 <= i < |units0| && (p < pass || (p == pass && i < k)) ==>
          SkippedQuiet(units0, entries0, occ0, snap, log, p, i))
  }

  /** An event after the visit of unit `i` in pass `p` leaves what is known about that visit as it was. */
  lemma SkippedQuietAppend(units0: seq<Unit>, entries0: map<UnitId, Mission>, occ0: set<Pos>, snap: Snapshot,
                           log: seq<Event>, e: Event, p: nat, i: int)
    requires 0 <= i < |units0| && !Precedes(e, p, i) && !(e.pass == p && e.unit == i)
    requires SkippedQuiet(units0, entries0, occ0, snap, log, p, i)
    ensures SkippedQuiet(units0, entries0, occ0, snap, log + [e], p, i)
  {
    var log' := log + [e];
    if !HasEvent(log', p, i) {
      assert forall j :: 0 <= j < |log| ==> log'[j] == log[j];
      CountBeforeAppend(log, e, p, i);
      var n := CountBefore(log, p, i);
      assert log'[..n] == log[..n];
    }
  }

  /** Visiting unit `k` of pass `pass` extends the trace to unit `k + 1`. */
  lemma TraceStep(units0: seq<Unit>, entries0: map<UnitId, Mission>, occ0: set<Pos>, snap: Snapshot,
                  log: seq<Event>, pass: nat, k: nat, e: Option<Event>, occupied: set<Pos>)
    requires k < |units0|
    requires Trace(units0, entries0, occ0, snap, log, pass, k)
    requires occupied == OccAfter(occ0, units0, snap.ownCityTiles, log)
    requires e.Some? ==> e.value.unit == k && e.value.pass == pass && (e.value.Moved? ==> e.value.occupied == occupied)
    requires e.None? ==>
               Quiet(AfterMoves(units0, MovedUnits(log)), entries0 - ArrivedIds(log, units0), occupied, snap, k)
    ensures Trace(units0, entries0, occ0, snap, if e.Some? then log + [e.value] else log, pass, k + 1)
  {
    if e.None? {
      TraceSkip(units0, entries0, occ0, snap, log, pass, k);
    } else {
      TraceAppend(units0, entries0, occ0, snap, log, pass, k, e.value);
    }
  }

  /** Unit `k` of pass `pass` was visited without an event. */
  lemma TraceSkip(units0: seq<Unit>, entries0: map<UnitId, Mission>, occ0: set<Pos>, snap: Snapshot,
                  log: seq<Event>, pass: nat, k: nat)
    requires k < |units0|
    requires Trace(units0, entries0, occ0, snap, log, pass, k)
    requires Quiet(AfterMoves(units0, MovedUnits(log)), entries0 - ArrivedIds(log, units0),
                   OccAfter(occ0, units0, snap.ownCityTiles, log), snap, k)
    ensures Trace(units0, entries0, occ0, snap, log, pass, k + 1)
  {
    forall p: nat, i | 0 <= i < |units0| && (p < pass || (p == pass && i < k + 1))
      ensures SkippedQuiet(units0, entries0, occ0, snap, log, p, i)
    {
      if p == pass && i == k {
        CountBeforeAll(log, p, i);
        assert log[..CountBefore(log, p, i)] == log;
      }
    }
  }

  /** Unit `k` of pass `pass` produced the event `ev`. */
  lemma TraceAppend(units0: seq<Unit>, entries0: map<UnitId, Mission>, occ0: set<Pos>, snap: Snapshot,
                    log: seq<Event>, pass: nat, k: nat, ev: Event)
    requires k < |units0|
    requires Trace(units0, entries0, occ0, snap, log, pass, k)
    requires ev.unit == k && ev.pass == pass
    requires ev.Moved? ==> ev.occupied == OccAfter(occ0, units0, snap.ownCityTiles, log)
    ensures Trace(units0, entries0, occ0, snap, log + [ev], pass, k + 1)
  {
    var log' := log + [ev];
    assert forall j :: 0 <= j < |log| ==> log'[j] == log[j];
    assert log'[|log|] == ev;
    forall j | 0 <= j < |log'| && log'[j].Moved?
      ensures log'[j].occupied == OccAfter(occ0, units0, snap.ownCityTiles, log'[..j])
    {
      assert log'[..j] == log[..j];
    }
    forall p: nat, i | 0 <= i < |units0| && (p < pass || (p == pass && i < k + 1))
      ensures SkippedQuiet(units0, entries0, occ0, snap, log', p, i)
    {
      if p == pass && i == k {
        assert log'[|log|].pass == p && log'[|log|].unit == i;
      } else {
        SkippedQuietAppend(units0, entries0, occ0, snap, log, ev, p, i);
      }
    }
  }

  /** A trace through every unit of pass `pass` is a trace up to the start of the next pass. */
  lemma TraceNextPass(units0: seq<Unit>, entries0: map<UnitId, Mission>, occ0: set<Pos>, snap: Snapshot,
                      log: seq<Event>, pass: nat)
    requires Trace(units0, entries0, occ0, snap, log, pass, |units0|)
    ensures Trace(units0, entries0, occ0, snap, log, pass + 1, 0)
  {
    forall p: nat, i | 0 <= i < |units0| && p < pass + 1
      ensures SkippedQuiet(units0, entries0, occ0, snap, log, p, i)
    {
      assert p < pass || (p == pass && i < |units0|);
    }
  }

  /** Some event of pass `p` puts a command on the action list. */
  predicate EmitsIn(log: seq<Event>, units0: seq<Unit>, p: nat)
    requires InRange(log, |units0|)
  {
    exists j :: 0 <= j < |log| && log[j].pass == p && Emits(log[j], units0) != []
  }

  lemma EmitsInAppend(log: seq<Event>, units0: seq<Unit>, e: Event, p: nat)
    requires InRange(log, |units0|) && e.unit < |units0|
    ensures InRange(log + [e], |units0|)
    ensures EmitsIn(log + [e], units0, p) <==> EmitsIn(log, units0, p) || (e.pass == p && Emits(e, units0) != [])
  {
    var log' := log + [e];
    assert forall j :: 0 <= j < |log| ==> log'[j] == log[j];
    assert log'[|log|] == e;
    if EmitsIn(log', units0, p) {
      var j :| 0 <= j < |log'| && log'[j].pass == p && Emits(log'[j], units0) != [];
      if j < |log| {
        assert log[j] == log'[j];
      }
    }
  }

  /** The body of the sweep for unit `k` in pass `pass`: skip it if it cannot
      act or has no mission; on its target, emit the mission's action unless
      empty and delete the mission; otherwise try to step towards the target.
      `e` is the event this produces, if any: it is about unit `k` in this
      pass, a mover's event records the occupied set it was chosen against,
      and the output and the new occupied set are those the event implies. */
  method ActOn(game: Game, missions: Missions, k: nat, order: seq<Direction>, pass: nat,
               ghost units0: seq<Unit>, ghost entries0: map<UnitId, Mission>,
               ghost orders: (nat, nat) -> seq<Direction>, ghost log: seq<Event>)
    returns (emitted: seq<string>, ghost e: Option<Event>)
    requires missions.Valid() && k < |game.units| && order == orders(pass, k) && IsShuffle(order)
    requires SweepState(units0, entries0, game.snap, orders, log, game.units, missions.entries)
    modifies game, missions
    ensures missions.Valid() && |game.units| == |old(game.units)|
    ensures var log' := if e.Some? then log + [e.value] else log;
            && SweepState(units0, entries0, game.snap, orders, log', game.units, missions.entries)
            && Output(log', units0) == Output(log, units0) + emitted
            && (ClaimState(units0, log, old(game.units), old(game.occupied), game.snap.ownCityTiles) ==>
                  ClaimState(units0, log', game.units, game.occupied, game.snap.ownCityTiles))
    ensures e.Some? ==> e.value.unit == k && e.value.pass == pass && (e.value.Moved? ==> e.value.occupied == old(game.occupied))
    ensures emitted == if e.Some? then Emits(e.value, units0) else []
    ensures game.occupied == if e.Some? then OccStep(old(game.occupied), e.value, units0, game.snap.ownCityTiles) else old(game.occupied)
    ensures Active(game.units, missions.entries) <= old(Active(game.units, missions.entries))
    ensures emitted != [] ==> Active(game.units, missions.entries) < old(Active(game.units, missions.entries))
    ensures emitted == [] ==>
              && game.units == old(game.units) && game.occupied == old(game.occupied)
              && (forall id :: id in missions.entries ==> id in old(missions.entries) && missions.entries[id] == old(missions.entries)[id])
              && Quiet(game.units, missions.entries, game.occupied, game.snap, k)
  {
    var unit := game.units[k];
    if !CanAct(unit) {
      return [], None;
    }
    if unit.id !in missions.entries {
      return [], None;
    }
    if unit.pos == missions.entries[unit.id].target {
      emitted, e := Arrive(game, missions, k, pass, units0, entries0, orders, log);
    } else {
      emitted, e := StepTowards(game, k, order, pass, missions, units0, entries0, orders, log);
    }
  }

  /** Unit `k` stands on its target: emit the mission's action unless it is
      empty, and delete the mission. The units and the occupied set stay as they are. */
  method Arrive(game: Game, missions: Missions, k: nat, pass: nat,
                ghost units0: seq<Unit>, ghost entries0: map<UnitId, Mission>,
                ghost orders: (nat, nat) -> seq<Direction>, ghost log: seq<Event>)
    returns (emitted: seq<string>, ghost e: Option<Event>)
    requires missions.Valid() && k < |game.units| && k in Active(game.units, missions.entries)
    requires game.units[k].pos == missions.entries[game.units[k].id].target
    requires SweepState(units0, entries0, game.snap, orders, log, game.units, missions.entries)
    modifies missions
    ensures missions.Valid()
    ensures game.units == old(game.units) && game.occupied == old(game.occupied)
    ensures var id := game.units[k].id;
            && e == Some(Arrived(k, old(missions.entries)[id].action, pass))
            && missions.entries == old(missions.entries) - {id}
    ensures SweepState(units0, entries0, game.snap, orders, log + [e.value], game.units, missions.entries)
    ensures emitted == Emits(e.value, units0)
    ensures Output(log + [e.value], units0) == Output(log, units0) + emitted
    ensures ClaimState(units0, log, game.units, game.occupied, game.snap.ownCityTiles) ==>
              ClaimState(units0, log + [e.value], game.units, game.occupied, game.snap.ownCityTiles)
    ensures Active(game.units, missions.entries) < old(Active(game.units, missions.entries))
    ensures emitted == [] ==> Quiet(game.units, missions.entries, game.occupied, game.snap, k)
  {
    ghost var own := game.snap.ownCityTiles;
    var unit := game.units[k];
    var action := missions.entries[unit.id].action;
    ArriveState(units0, entries0, game.snap, orders, log, game.units, missions.entries, k, pass);
    ArriveClaims(units0, log, Arrived(k, action, pass), own);
    OutputAppend(log, Arrived(k, action, pass), units0);
    emitted := if action != "" then [action] else [];
    missions.Delete(unit.id);
    e := Some(Arrived(k, action, pass));
  }

  /** A move by unit `k` in the chosen direction `d`: the sweep state and the
      claims on tiles carry over to the log with the move appended, the move
      command is the one new line of output, and unit `k` stops being active. */
  lemma MoveStep(units0: seq<Unit>, entries0: map<UnitId, Mission>, snap: Snapshot,
                 orders: (nat, nat) -> seq<Direction>, log: seq<Event>,
                 units: seq<Unit>, entries: map<UnitId, Mission>, occ: set<Pos>, k: int, d: Direction, pass: nat)
    requires SweepState(units0, entries0, snap, orders, log, units, entries)
    requires k in Active(units, entries) && entries[units[k].id].target != units[k].pos
    requires IsShuffle(orders(pass, k))
    requires d != Center && d == ChosenDirection(ApproachFor(units[k], entries[units[k].id].target, occ, snap), orders(pass, k))
    ensures 0 <= k < |units| == |units0| && units[k] == units0[k]
    ensures var e := Moved(k, d, pass, occ);
            var u := units[k];
            var q := Translate(u.pos, d);
            var units' := units[k := u.(cooldown := u.cooldown + 2)];
            var occ' := (occ - {u.pos}) + (if q in snap.ownCityTiles then {} else {q});
            && SweepState(units0, entries0, snap, orders, log + [e], units', entries)
            && Output(log + [e], units0) == Output(log, units0) + [MoveCommand(u.id, d)]
            && (ClaimState(units0, log, units, occ, snap.ownCityTiles) ==>
                  ClaimState(units0, log + [e], units', occ', snap.ownCityTiles))
            && Active(units', entries) < Active(units, entries)
  {
    var e := Moved(k, d, pass, occ);
    ActiveUntouched(units0, entries0, snap, orders, log, units, entries, k);
    MoveState(units0, entries0, snap, orders, log, units, entries, k, d, pass, occ);
    if ClaimState(units0, log, units, occ, snap.ownCityTiles) {
      ChosenDirectionIsNearest(ApproachFor(units[k], entries[units[k].id].target, occ, snap), orders(pass, k));
      MoveKeepsClaims(units0, log, units, occ, snap.ownCityTiles, k, d, pass);
    }
    OutputAppend(log, e, units0);
  }

  /** Unit `k` is off its target: step towards it if `attempt_direction_to`
      finds a way. A step is a move event of this pass that records the
      occupied set it was chosen against; the missions stay as they are. */
  method StepTowards(game: Game, k: nat, order: seq<Direction>, pass: nat, missions: Missions,
                  ghost units0: seq<Unit>, ghost entries0: map<UnitId, Mission>,
                  ghost orders: (nat, nat) -> seq<Direction>, ghost log: seq<Event>)
    returns (emitted: seq<string>, ghost e: Option<Event>)
    requires missions.Valid() && k < |game.units| && k in Active(game.units, missions.entries)
    requires game.units[k].pos != missions.entries[game.units[k].id].target
    requires order == orders(pass, k) && IsShuffle(order)
    requires SweepState(units0, entries0, game.snap, orders, log, game.units, missions.entries)
    modifies game
    ensures |game.units| == |old(game.units)|
    ensures var log' := if e.Some? then log + [e.value] else log;
            && SweepState(units0, entries0, game.snap, orders, log', game.units, missions.entries)
            && Output(log', units0) == Output(log, units0) + emitted
            && (ClaimState(units0, log, old(game.units), old(game.occupied), game.snap.ownCityTiles) ==>
                  ClaimState(units0, log', game.units, game.occupied, game.snap.ownCityTiles))
    ensures e.Some? ==> e.value.Moved? && e.value.unit == k && e.value.pass == pass && e.value.occupied == old(game.occupied)
    ensures emitted == if e.Some? then Emits(e.value, units0) else []
    ensures game.occupied == if e.Some? then OccStep(old(game.occupied), e.value, units0, game.snap.ownCityTiles) else old(game.occupied)
    ensures Active(game.units, missions.entries) <= old(Active(game.units, missions.entries))
    ensures emitted != [] ==> Active(game.units, missions.entries) < old(Active(game.units, missions.entries))
    ensures emitted == [] ==>
              && game.units == old(game.units) && game.occupied == old(game.occupied)
              && Quiet(game.units, missions.entries, game.occupied, game.snap, k)
  {
    ghost var own := game.snap.ownCityTiles;
    var unit := game.units[k];
    var target := missions.entries[unit.id].target;
    ghost var occBefore := game.occupied;
    ghost var unitsBefore := game.units;
    var direction := AttemptDirectionTo(game, k, target, order);
    if direction == Center {
      assert game.units == unitsBefore && game.occupied == occBefore;
      QuietAfterCenter(game.units, missions.entries, game.occupied, game.snap, k, order);
      assert Output(log, units0) + [] == Output(log, units0);
      return [], None;
    }
    MoveStep(units0, entries0, game.snap, orders, log, unitsBefore, missions.entries, occBefore, k, direction, pass);
    assert game.units == unitsBefore[k := unit.(cooldown := unit.cooldown + 2)];
    emitted := [MoveCommand(unit.id, direction)];
    e := Some(Moved(k, direction, pass, occBefore));
    assert SweepState(units0, entries0, game.snap, orders, log + [e.value], game.units, missions.entries);
    assert game.occupied == OccStep(occBefore, e.value, units0, own);
  }

  /** What a pass has established after visiting the first `k` units, for a
      pass that started with `prevLen` commands, the active units `activeStart`,
      the occupied set `occStart` and the units `unitsStart`. */
  ghost predicate PassProgress(units0: seq<Unit>, entries0: map<UnitId, Mission>, snap: Snapshot,
                               orders: (nat, nat) -> seq<Direction>, tracked: bool,
                               prevLen: int, activeStart: set<int>, occStart: set<Pos>, unitsStart: seq<Unit>, k: int,
                               log: seq<Event>, actions: seq<string>,
                               units: seq<Unit>, entries: map<UnitId, Mission>, occupied: set<Pos>)
  {
    && SweepState(units0, entries0, snap, orders, log, units, entries)
    && actions == Output(log, units0) && |actions| >= prevLen
    && (tracked ==> ClaimState(units0, log, units, occupied, snap.ownCityTiles))
    && Active(units, entries) <= activeStart
    && (|actions| > prevLen ==> Active(units, entries) < activeStart)
    && (|actions| == prevLen ==> occupied == occStart && units == unitsStart)
    && (|actions| == prevLen ==> k <= |units| && forall j :: 0 <= j < k ==> Quiet(units, entries, occupied, snap, j))
  }

  /** `ActOn` for unit `k` extends the progress of a pass to the first `k + 1` units. */
  lemma PassStep(units0: seq<Unit>, entries0: map<UnitId, Mission>, snap: Snapshot,
                 orders: (nat, nat) -> seq<Direction>, tracked: bool,
                 prevLen: int, activeStart: set<int>, occStart: set<Pos>, unitsStart: seq<Unit>, k: int,
                 log: seq<Event>, actions: seq<string>,
                 units: seq<Unit>, entries: map<UnitId, Mission>, occupied: set<Pos>,
                 emitted: seq<string>, e: Option<Event>,
                 units': seq<Unit>, entries': map<UnitId, Mission>, occupied': set<Pos>)
    requires 0 <= k < |units| == |units'|
    requires PassProgress(units0, entries0, snap, orders, tracked, prevLen, activeStart, occStart, unitsStart, k,
                          log, actions, units, entries, occupied)
    requires var log' := if e.Some? then log + [e.value] else log;
             && SweepState(units0, entries0, snap, orders, log', units', entries')
             && Output(log', units0) == Output(log, units0) + emitted
             && (ClaimState(units0, log, units, occupied, snap.ownCityTiles) ==>
                   ClaimState(units0, log', units', occupied', snap.ownCityTiles))
    requires Active(units', entries') <= Active(units, entries)
    requires emitted != [] ==> Active(units', entries') < Active(units, entries)
    requires emitted == [] ==>
               && units' == units && occupied' == occupied
               && (forall id :: id in entries' ==> id in entries && entries'[id] == entries[id])
               && Quiet(units', entries', occupied', snap, k)
    ensures PassProgress(units0, entries0, snap, orders, tracked, prevLen, activeStart, occStart, unitsStart, k + 1,
                         if e.Some? then log + [e.value] else log, actions + emitted, units', entries', occupied')
  {
    var log' := if e.Some? then log + [e.value] else log;
    if emitted == [] {
      PassStepQuiet(units0, entries0, snap, orders, tracked, prevLen, activeStart, occStart, unitsStart, k,
                    log, actions, units, entries, occupied, log', entries');
    } else {
      PassStepActs(units0, entries0, snap, orders, tracked, prevLen, activeStart, occStart, unitsStart, k,
                   log, actions, units, entries, occupied, emitted, log', units', entries', occupied');
    }
  }

  /** `PassStep` when unit `k` emits nothing. */
  lemma PassStepQuiet(units0: seq<Unit>, entries0: map<UnitId, Mission>, snap: Snapshot,
                      orders: (nat, nat) -> seq<Direction>, tracked: bool,
                      prevLen: int, activeStart: set<int>, occStart: set<Pos>, unitsStart: seq<Unit>, k: int,
                      log: seq<Event>, actions: seq<string>,
                      units: seq<Unit>, entries: map<UnitId, Mission>, occupied: set<Pos>,
                      log': seq<Event>, entries': map<UnitId, Mission>)
    requires 0 <= k < |units|
    requires PassProgress(units0, entries0, snap, orders, tracked, prevLen, activeStart, occStart, unitsStart, k,
                          log, actions, units, entries, occupied)
    requires SweepState(units0, entries0, snap, orders, log', units, entries')
    requires Output(log', units0) == Output(log, units0)
    requires ClaimState(units0, log, units, occupied, snap.ownCityTiles) ==>
               ClaimState(units0, log', units, occupied, snap.ownCityTiles)
    requires Active(units, entries') <= Active(units, entries)
    requires forall id :: id in entries' ==> id in entries && entries'[id] == entries[id]
    requires Quiet(units, entries', occupied, snap, k)
    ensures PassProgress(units0, entries0, snap, orders, tracked, prevLen, activeStart, occStart, unitsStart, k + 1,
                         log', actions, units, entries', occupied)
  {
    if |actions| == prevLen {
      QuietShrink(units, entries, entries', occupied, snap, k);
    }
  }

  /** `PassStep` when unit `k` emits a command. */
  lemma PassStepActs(units0: seq<Unit>, entries0: map<UnitId, Mission>, snap: Snapshot,
                     orders: (nat, nat) -> seq<Direction>, tracked: bool,
                     prevLen: int, activeStart: set<int>, occStart: set<Pos>, unitsStart: seq<Unit>, k: int,
                     log: seq<Event>, actions: seq<string>,
                     units: seq<Unit>, entries: map<UnitId, Mission>, occupied: set<Pos>,
                     emitted: seq<string>, log': seq<Event>,
                     units': seq<Unit>, entries': map<UnitId, Mission>, occupied': set<Pos>)
    requires emitted != []
    requires PassProgress(units0, entries0, snap, orders, tracked, prevLen, activeStart, occStart, unitsStart, k,
                          log, actions, units, entries, occupied)
    requires SweepState(units0, entries0, snap, orders, log', units', entries')
    requires Output(log', units0) == Output(log, units0) + emitted
    requires ClaimState(units0, log, units, occupied, snap.ownCityTiles) ==>
               ClaimState(units0, log', units', occupied', snap.ownCityTiles)
    requires Active(units', entries') < Active(units, entries)
    ensures PassProgress(units0, entries0, snap, orders, tracked, prevLen, activeStart, occStart, unitsStart, k + 1,
                         log', actions + emitted, units', entries', occupied')
  {
    assert |actions + emitted| > |actions| >= prevLen;
  }

  /** What a pass has established about the trace after visiting the first
      `k` units, for a pass that started with the log `logStart` and `prevLen`
      commands: the trace reaches unit `k`, the occupied set is the one the
      log implies, and the pass has emitted exactly when the list grew. */
  ghost predicate PassTrace(units0: seq<Unit>, entries0: map<UnitId, Mission>, occ0: set<Pos>, snap: Snapshot,
                            pass: nat, k: int, logStart: seq<Event>, prevLen: int,
                            log: seq<Event>, actions: seq<string>, occupied: set<Pos>)
  {
    && InRange(logStart, |units0|) && InRange(log, |units0|)
    && Trace(units0, entries0, occ0, snap, log, pass, k)
    && occupied == OccAfter(occ0, units0, snap.ownCityTiles, log)
    && (forall p: nat :: p < pass ==> (EmitsIn(log, units0, p) <==> EmitsIn(logStart, units0, p)))
    && (EmitsIn(log, units0, pass) <==> |actions| > prevLen)
  }

  /** `ActOn` for unit `k` extends the trace of a pass to the first `k + 1` units. */
  lemma PassTraceStep(units0: seq<Unit>, entries0: map<UnitId, Mission>, occ0: set<Pos>, snap: Snapshot,
                      pass: nat, k: nat, logStart: seq<Event>, prevLen: int,
                      log: seq<Event>, actions: seq<string>, occupied: set<Pos>,
                      emitted: seq<string>, e: Option<Event>, occupied': set<Pos>)
    requires k < |units0| && |actions| >= prevLen
    requires PassTrace(units0, entries0, occ0, snap, pass, k, logStart, prevLen, log, actions, occupied)
    requires e.Some? ==> e.value.unit == k && e.value.pass == pass && (e.value.Moved? ==> e.value.occupied == occupied)
    requires emitted == if e.Some? then Emits(e.value, units0) else []
    requires occupied' == if e.Some? then OccStep(occupied, e.value, units0, snap.ownCityTiles) else occupied
    requires e.None? ==>
               Quiet(AfterMoves(units0, MovedUnits(log)), entries0 - ArrivedIds(log, units0), occupied, snap, k)
    ensures PassTrace(units0, entries0, occ0, snap, pass, k + 1, logStart, prevLen,
                      if e.Some? then log + [e.value] else log, actions + emitted, occupied')
  {
    TraceStep(units0, entries0, occ0, snap, log, pass, k, e, occupied);
    if e.Some? {
      OccAfterAppend(occ0, units0, snap.ownCityTiles, log, e.value);
      forall p: nat
        ensures EmitsIn(log + [e.value], units0, p) <==> EmitsIn(log, units0, p) || (e.value.pass == p && emitted != [])
      {
        EmitsInAppend(log, units0, e.value, p);
      }
    }
  }

  /** One pass of the sweep: `ActOn` for every unit in order. A pass that
      emits nothing leaves every unit with nothing left to do. */
  method SweepPass(game: Game, missions: Missions, orders: (nat, nat) -> seq<Direction>, pass: nat,
                   actions: seq<string>, ghost log: seq<Event>,
                   ghost units0: seq<Unit>, ghost entries0: map<UnitId, Mission>, ghost occ0: set<Pos>,
                   ghost tracked: bool)
    returns (actions': seq<string>, ghost log': seq<Event>)
    requires missions.Valid() && forall p: nat, i: nat :: IsShuffle(orders(p, i))
    requires SweepState(units0, entries0, game.snap, orders, log, game.units, missions.entries)
    requires SweepTrace(units0, entries0, occ0, game.snap, pass, log, game.occupied, false)
    requires actions == Output(log, units0)
    requires tracked ==> ClaimState(units0, log, game.units, game.occupied, game.snap.ownCityTiles)
    modifies game, missions
    ensures missions.Valid() && |game.units| == |old(game.units)|
    ensures SweepState(units0, entries0, game.snap, orders, log', game.units, missions.entries)
    ensures actions' == Output(log', units0) && |actions'| >= |actions|
    ensures SweepTrace(units0, entries0, occ0, game.snap, pass + 1, log', game.occupied, |actions'| == |actions|)
    ensures tracked ==> ClaimState(units0, log', game.units, game.occupied, game.snap.ownCityTiles)
    ensures Active(game.units, missions.entries) <= old(Active(game.units, missions.entries))
    ensures |actions'| > |actions| ==> Active(game.units, missions.entries) < old(Active(game.units, missions.entries))
    ensures |actions'| == |actions| ==> FixedPoint(game.units, missions.entries, game.occupied, game.snap)
  {
    ghost var activeStart := Active(game.units, missions.entries);
    ghost var occStart := game.occupied;
    ghost var unitsStart := game.units;
    actions' := actions;
    log' := log;
    assert !EmitsIn(log, units0, pass);
    var k := 0;
    while k < |game.units|
      invariant 0 <= k <= |game.units| == |unitsStart| == |units0|
      invariant missions.Valid()
      invariant PassProgress(units0, entries0, game.snap, orders, tracked, |actions|, activeStart, occStart, unitsStart, k,
                             log', actions', game.units, missions.entries, game.occupied)
      invariant PassTrace(units0, entries0, occ0, game.snap, pass, k, log, |actions|, log', actions', game.occupied)
    {
      actions', log' := VisitUnit(game, missions, orders, pass, k, actions', log', units0, entries0, occ0, tracked,
                                  |actions|, log, activeStart, occStart, unitsStart);
      k := k + 1;
    }
    TraceNextPass(units0, entries0, occ0, game.snap, log', pass);
    SweepTraceStep(units0, entries0, occ0, game.snap, pass, log, old(game.occupied), actions,
                   log', game.occupied, actions');
  }

  /** The body of a pass for unit `k`: `ActOn`, with the progress and the
      trace of the pass carried from the first `k` units to the first `k + 1`. */
  method VisitUnit(game: Game, missions: Missions, orders: (nat, nat) -> seq<Direction>, pass: nat, k: nat,
                   actions: seq<string>, ghost log: seq<Event>,
                   ghost units0: seq<Unit>, ghost entries0: map<UnitId, Mission>, ghost occ0: set<Pos>,
                   ghost tracked: bool, ghost prevLen: int, ghost logStart: seq<Event>,
                   ghost activeStart: set<int>, ghost occStart: set<Pos>, ghost unitsStart: seq<Unit>)
    returns (actions': seq<string>, ghost log': seq<Event>)
    requires missions.Valid() && forall p: nat, i: nat :: IsShuffle(orders(p, i))
    requires k < |game.units| == |units0|
    requires PassProgress(units0, entries0, game.snap, orders, tracked, prevLen, activeStart, occStart, unitsStart, k,
                          log, actions, game.units, missions.entries, game.occupied)
    requires PassTrace(units0, entries0, occ0, game.snap, pass, k, logStart, prevLen, log, actions, game.occupied)
    modifies game, missions
    ensures missions.Valid() && |game.units| == |units0|
    ensures PassProgress(units0, entries0, game.snap, orders, tracked, prevLen, activeStart, occStart, unitsStart, k + 1,
                         log', actions', game.units, missions.entries, game.occupied)
    ensures PassTrace(units0, entries0, occ0, game.snap, pass, k + 1, logStart, prevLen, log', actions', game.occupied)
  {
    ghost var unitsBefore, entriesBefore, occBefore := game.units, missions.entries, game.occupied;
    var emitted, e := ActOn(game, missions, k, orders(pass, k), pass, units0, entries0, orders, log);
    PassStep(units0, entries0, game.snap, orders, tracked, prevLen, activeStart, occStart, unitsStart, k,
             log, actions, unitsBefore, entriesBefore, occBefore, emitted, e,
             game.units, missions.entries, game.occupied);
    PassTraceStep(units0, entries0, occ0, game.snap, pass, k, logStart, prevLen, log, actions, occBefore,
                  emitted, e, game.occupied);
    actions' := actions + emitted;
    log' := if e.Some? then log + [e.value] else log;
  }

  /** The trace of the sweep before pass `pass`: it reaches the start of that
      pass, the occupied set is the one the log implies, and every pass so far
      emitted a command except the last one once the sweep is `done`. */
  ghost predicate SweepTrace(units0: seq<Unit>, entries0: map<UnitId, Mission>, occ0: set<Pos>, snap: Snapshot,
                             pass: nat, log: seq<Event>, occupied: set<Pos>, done: bool)
  {
    && InRange(log, |units0|)
    && Trace(units0, entries0, occ0, snap, log, pass, 0)
    && occupied == OccAfter(occ0, units0, snap.ownCityTiles, log)
    && (forall p: nat :: p < pass ==> (EmitsIn(log, units0, p) <==> (p + 1 < pass || !done)))
  }

  /** A pass run while the sweep is not done extends its trace by one pass;
      the sweep is done when the pass emitted nothing. */
  lemma SweepTraceStep(units0: seq<Unit>, entries0: map<UnitId, Mission>, occ0: set<Pos>, snap: Snapshot,
                       pass: nat, log: seq<Event>, occupied: set<Pos>, actions: seq<string>,
                       log': seq<Event>, occupied': set<Pos>, actions': seq<string>)
    requires SweepTrace(units0, entries0, occ0, snap, pass, log, occupied, false)
    requires InRange(log', |units0|)
    requires Trace(units0, entries0, occ0, snap, log', pass + 1, 0)
    requires occupied' == OccAfter(occ0, units0, snap.ownCityTiles, log')
    requires forall p: nat :: p < pass ==> (EmitsIn(log', units0, p) <==> EmitsIn(log, units0, p))
    requires |actions'| >= |actions| && (EmitsIn(log', units0, pass) <==> |actions'| > |actions|)
    ensures SweepTrace(units0, entries0, occ0, snap, pass + 1, log', occupied', |actions'| == |actions|)
  {
    forall p: nat | p < pass + 1
      ensures EmitsIn(log', units0, p) <==> (p + 1 < pass + 1 || |actions'| != |actions|)
    {
      if p < pass {
        assert EmitsIn(log, units0, p);
      }
    }
  }

  /** `make_unit_actions`: repeat passes over the units until a pass adds no
      command. `orders(p, i)` is the shuffled direction order used for unit `i`
      in pass `p`. */
  method MakeUnitActions(game: Game, missions: Missions, orders: (nat, nat) -> seq<Direction>)
    returns (actions: seq<string>, ghost log: seq<Event>, ghost passes: nat)
    requires missions.Valid()
    requires forall p: nat, i: nat :: IsShuffle(orders(p, i))
    modifies game, missions
    ensures missions.Valid()
    ensures InRange(log, |old(game.units)|) && OncePerUnit(log)
    ensures forall j :: 0 <= j < |log| ==> Justified(log[j], old(game.units), old(missions.entries), game.snap, orders)
    ensures actions == Output(log, old(game.units))
    ensures game.units == AfterMoves(old(game.units), MovedUnits(log))
    ensures missions.entries == old(missions.entries) - ArrivedIds(log, old(game.units))
    ensures |actions| <= |log| <= |game.units| && passes <= |game.units| + 1
    ensures FixedPoint(game.units, missions.entries, game.occupied, game.snap)
    ensures Trace(old(game.units), old(missions.entries), old(game.occupied), game.snap, log, passes, 0)
    ensures game.occupied == OccAfter(old(game.occupied), old(game.units), game.snap.ownCityTiles, log)
    ensures forall p: nat :: p < passes ==> (EmitsIn(log, old(game.units), p) <==> p + 1 < passes)
    ensures Tracked(old(game.units), old(game.occupied), game.snap.ownCityTiles) ==>
              && DistinctClaims(log, old(game.units), game.snap.ownCityTiles)
              && Claimed(log, old(game.units), game.snap.ownCityTiles) <= game.occupied
  {
    ghost var units0 := game.units;
    ghost var entries0 := missions.entries;
    ghost var occ0 := game.occupied;
    ghost var tracked := Tracked(game.units, game.occupied, game.snap.ownCityTiles);
    actions := [];
    log := [];
    var pass := 0;
    var prev := -1;
    SubsetSize(Active(game.units, missions.entries), Indices(|units0|));
    while prev < |actions|
      invariant missions.Valid() && |game.units| == |units0|
      invariant SweepState(units0, entries0, game.snap, orders, log, game.units, missions.entries)
      invariant actions == Output(log, units0)
      invariant -1 <= prev <= |actions|
      invariant tracked ==> ClaimState(units0, log, game.units, game.occupied, game.snap.ownCityTiles)
      invariant prev == |actions| ==> FixedPoint(game.units, missions.entries, game.occupied, game.snap)
      invariant SweepTrace(units0, entries0, occ0, game.snap, pass, log, game.occupied, prev == |actions|)
      invariant pass + |Active(game.units, missions.entries)| <= |units0| + (if prev < |actions| then 0 else 1)
      decreases |Active(game.units, missions.entries)| + (if prev < |actions| then 1 else 0)
    {
      prev := |actions|;
      ghost var activeStart := Active(game.units, missions.entries);
      actions, log := SweepPass(game, missions, orders, pass, actions, log, units0, entries0, occ0, tracked);
      SubsetSize(Active(game.units, missions.entries), activeStart);
      pass := pass + 1;
    }
    passes := pass;
    LogSize(log, |units0|);
  }

  /** A lone unit at (0, 0) whose mission targets (3, 0), with the order north,
      east, south, west: a move the sweep logs for it heads east, because the
      first mover sees the occupied set the sweep started with. */
  lemma LoneUnitHeadsEast(snap: Snapshot, entries0: map<UnitId, Mission>, orders: (nat, nat) -> seq<Direction>,
                          log: seq<Event>)
    requires snap.ownCityTiles == {}
    requires entries0 == map["u" := Mission("u", Pos(3, 0), "", 0)]
    requires |log| > 0 && log[0].Moved? && orders(log[0].pass, 0) == [North, East, South, West]
    requires Justified(log[0], [Unit("u", Pos(0, 0), 0, Cargo(0, 0, 0))], entries0, snap, orders)
    requires Trace([Unit("u", Pos(0, 0), 0, Cargo(0, 0, 0))], entries0, {Pos(0, 0)}, snap, log, log[0].pass + 1, 0)
    ensures log[0].dir == East
  {
    assert log[..0] == [];
    var a := ApproachFor(Unit("u", Pos(0, 0), 0, Cargo(0, 0, 0)), Pos(3, 0), {Pos(0, 0)}, snap);
    var order := [North, East, South, West];
    assert ChooseAmong(a, order, 1) == Choice(North, 4);
    assert ChooseAmong(a, order, 2) == Choice(East, 2);
    assert ChooseAmong(a, order, 4) == Choice(East, 2);
  }
}
