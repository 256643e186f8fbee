/** Missions of lux/game.py: one pending target (and optional command) per
    unit, kept in a store keyed by unit id that is pruned every turn. */
module LuxMissions {
  import opened LuxBasics

  /** A target tile, the command to issue on arrival ("" for none) and a delay counter. */
  datatype Mission = Mission(unitId: UnitId, target: Pos, action: string, delays: int)

  /** `Mission(unit_id, target_position, target_action="")`. */
  function NewMission(unitId: UnitId, target: Pos, action: string := ""): (m: Mission)
    ensures m.unitId == unitId && m.target == target && m.action == action
    ensures m.delays == 0
  {
    Mission(unitId, target, action, 0)
  }

  /** Python's `a[:n]`: the whole string when it is shorter than `n`. */
  function Head(a: string, n: nat): (r: string)
    ensures |r| == Min(|a|, n) && r <= a
  {
    if |a| <= n then a else a[..n]
  }

  /** `mission.target_action and mission.target_action[:5] == "bcity"`. */
  predicate IsBuildCity(action: string) {
    action != "" && Head(action, 5) == "bcity"
  }

  /** Whether `cleanup` keeps the mission of unit `id`: the unit is alive, it
      does not want to build a city with empty cargo, its target is not an
      opponent city tile, and it is not standing on one of its own city tiles. */
  predicate Keeps(id: UnitId, m: Mission, units: map<UnitId, Unit>, own: set<Pos>, opp: set<Pos>) {
    && id in units
    && !(IsBuildCity(m.action) && CargoTotal(units[id].cargo) == 0)
    && m.target !in opp
    && units[id].pos !in own
  }

  /** The store after `cleanup`. */
  function Pruned(entries: map<UnitId, Mission>, units: map<UnitId, Unit>, own: set<Pos>, opp: set<Pos>)
    : (r: map<UnitId, Mission>)
    ensures r.Keys <= entries.Keys
    ensures forall k :: k in r ==> r[k] == entries[k]
    ensures forall k :: k in r ==> k in units
    ensures forall k :: k in r ==> !(IsBuildCity(r[k].action) && CargoTotal(units[k].cargo) == 0)
    ensures forall k :: k in r ==> r[k].target !in opp && units[k].pos !in own
    ensures forall k :: k in entries && Keeps(k, entries[k], units, own, opp) ==> k in r
  {
    map k | k in entries && Keeps(k, entries[k], units, own, opp) :: entries[k]
  }

  /** Pruning twice removes nothing more than pruning once. */
  lemma PrunedIdempotent(entries: map<UnitId, Mission>, units: map<UnitId, Unit>, own: set<Pos>, opp: set<Pos>)
    ensures Pruned(Pruned(entries, units, own, opp), units, own, opp) == Pruned(entries, units, own, opp)
  {
    var once := Pruned(entries, units, own, opp);
    var twice := Pruned(once, units, own, opp);
    assert twice.Keys == once.Keys;
  }

  /** Pruning a store into which a mission was just added decides that mission
      alone by the rules, and every other entry as before. */
  lemma PrunedAfterAdd(entries: map<UnitId, Mission>, m: Mission, units: map<UnitId, Unit>, own: set<Pos>, opp: set<Pos>)
    ensures var after := Pruned(entries[m.unitId := m], units, own, opp);
            && (m.unitId in after <==> Keeps(m.unitId, m, units, own, opp))
            && after - {m.unitId} == Pruned(entries, units, own, opp) - {m.unitId}
  {
    var after := Pruned(entries[m.unitId := m], units, own, opp);
    var before := Pruned(entries, units, own, opp);
    assert (after - {m.unitId}).Keys == (before - {m.unitId}).Keys;
  }

  /** The cleanup test as lux/game.py:50-54 writes it: `unit.cargo == 0`
      compares a cargo record with the number 0, which is never true, so the
      build-city clause never removes anything. */
  predicate KeepsAsWritten(id: UnitId, m: Mission, units: map<UnitId, Unit>, own: set<Pos>, opp: set<Pos>) {
    && id in units
    && m.target !in opp
    && units[id].pos !in own
  }

  /** A worker with empty cargo holding a build-city mission keeps it under the
      code as written, though the comment above the test says it should go. */
  lemma AsWrittenKeepsEmptyBuilder()
    ensures var u := Unit("u_1", Pos(0, 0), 0, Cargo(0, 0, 0));
            var m := NewMission("u_1", Pos(3, 0), BuildCityCommand("u_1"));
            var units := map["u_1" := u];
            KeepsAsWritten("u_1", m, units, {}, {}) && !Keeps("u_1", m, units, {}, {})
  {
    assert Head(BuildCityCommand("u_1"), 5) == "bcity";
  }

  /** The mission store: unit id to mission. Being a map, it holds at most one
      mission per unit; `Valid` says each entry is filed under its own unit. */
  class Missions {
    var entries: map<UnitId, Mission>

    ghost predicate Valid()
      reads this
    {
      forall k :: k in entries ==> entries[k].unitId == k
    }

    constructor ()
      ensures Valid() && entries == map[]
    {
      entries := map[];
    }

    /** `add`: an upsert keyed by the mission's unit. */
    method Add(m: Mission)
      requires Valid()
      modifies this
      ensures Valid()
      ensures entries == old(entries)[m.unitId := m]
      ensures m.unitId in entries && entries[m.unitId] == m
      ensures forall k :: k != m.unitId ==> (k in entries <==> k in old(entries))
      ensures forall k :: k != m.unitId && k in entries ==> entries[k] == old(entries)[k]
    {
      entries := entries[m.unitId := m];
    }

    /** `delete`: drop the unit's mission, if it has one. */
    method Delete(id: UnitId)
      requires Valid()
      modifies this
      ensures Valid()
      ensures entries == old(entries) - {id}
    {
      entries := entries - {id};
    }

    /** `cleanup`: visit every key and delete the missions that `Keeps` rejects. */
    method Cleanup(units: map<UnitId, Unit>, own: set<Pos>, opp: set<Pos>)
      requires Valid()
      modifies this
      ensures Valid()
      ensures entries == Pruned(old(entries), units, own, opp)
    {
      var todo := entries.Keys;
      while todo != {}
        invariant Valid()
        invariant todo <= old(entries).Keys
        invariant forall k :: k in entries <==>
                    k in old(entries) && (k in todo || Keeps(k, old(entries)[k], units, own, opp))
        invariant forall k :: k in entries ==> entries[k] == old(entries)[k]
        decreases todo
      {
        var id :| id in todo;
        todo := todo - {id};
        var mission := entries[id];
        if id !in units {
          entries := entries - {id};
          continue;
        }
        var unit := units[id];
        if mission.action != "" && Head(mission.action, 5) == "bcity" {
          if CargoTotal(unit.cargo) == 0 {
            entries := entries - {id};
            continue;
          }
        }
        if mission.target in opp {
          entries := entries - {id};
          continue;
        }
        if unit.pos in own {
          entries := entries - {id};
          continue;
        }
      }
      assert entries.Keys == Pruned(old(entries), units, own, opp).Keys;
    }

    /** `get_targets`: the target tiles of all missions (as a set; the list's order is not kept). */
    function Targets(): (r: set<Pos>)
      reads this
      ensures forall k :: k in entries ==> entries[k].target in r
      ensures forall p :: p in r ==> exists k :: k in entries && entries[k].target == p
    {
      set k | k in entries :: entries[k].target
    }
  }
}
