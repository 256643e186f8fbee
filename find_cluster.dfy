/** `find_best_cluster` of lux/find_cluster.py: the best-weighted cell of a
    score matrix within a unit's travel range, first in row-major order on ties. */
module LuxFindCluster {
  import opened LuxBasics

  type PosReal = r: real | r > 0.0 witness 1.0

  /** The weight `score * distance ** multiplier` of a cell, a floating-point
      power in the source, taken here as any positive function of
      (multiplier, score, distance). */
  type Weight = (real, int, int) -> PosReal

  /** How far a worker may travel before night: `max(0, turns_to_night // cooldown - 2)`.
      For a positive divisor Dafny's `/` is Python's floor division. */
  function TravelRange(turnsToNight: int, cooldown: int): (r: nat)
    requires cooldown > 0
    ensures r == 0 || r == turnsToNight / cooldown - 2
    ensures r >= turnsToNight / cooldown - 2
  {
    Max(0, turnsToNight / cooldown - 2)
  }

  /** `max(1, |dx| + |dy|)`: the Manhattan distance, but never 0. */
  function ClusterDistance(from: Pos, x: int, y: int): (d: nat)
    ensures d >= 1 && d >= Distance(from, Pos(x, y))
    ensures Distance(from, Pos(x, y)) >= 1 ==> d == Distance(from, Pos(x, y))
    ensures Distance(from, Pos(x, y)) == 0 ==> d == 1
  {
    Max(1, Abs(from.x - x) + Abs(from.y - y))
  }

  /** A cell worth going to: a positive score within travel range. */
  predicate IsCandidate(m: seq<seq<int>>, from: Pos, range: int, x: int, y: int) {
    0 <= y < |m| && 0 <= x < |m[y]| && m[y][x] > 0 && ClusterDistance(from, x, y) <= range
  }

  function CellWeight(m: seq<seq<int>>, from: Pos, weight: Weight, mult: real, x: int, y: int): real
    requires 0 <= y < |m| && 0 <= x < |m[y]|
  {
    weight(mult, m[y][x], ClusterDistance(from, x, y))
  }

  /** The search state: the best position so far and its weight (-1 for none). */
  type Best = (Pos, real)

  /** One step of the scan: a candidate strictly heavier than the current best replaces it. */
  function ClusterStep(m: seq<seq<int>>, from: Pos, range: int, weight: Weight, mult: real, x: int, y: int, acc: Best): Best
    requires 0 <= y < |m| && 0 <= x < |m[y]|
  {
    if IsCandidate(m, from, range, x, y) && CellWeight(m, from, weight, mult, x, y) > acc.1
    then (Pos(x, y), CellWeight(m, from, weight, mult, x, y))
    else acc
  }

  /** Scan the first `x` entries of row `y`. */
  function ClusterInRow(m: seq<seq<int>>, from: Pos, range: int, weight: Weight, mult: real, y: int, x: nat, acc: Best): Best
    requires 0 <= y < |m| && x <= |m[y]|
  {
    if x == 0 then acc
    else ClusterStep(m, from, range, weight, mult, x - 1, y, ClusterInRow(m, from, range, weight, mult, y, x - 1, acc))
  }

  /** Scan the first `y` rows, starting from the unit's own position with weight -1. */
  function ClusterInRows(m: seq<seq<int>>, from: Pos, range: int, weight: Weight, mult: real, y: nat): Best
    requires y <= |m|
  {
    if y == 0 then (from, -1.0)
    else ClusterInRow(m, from, range, weight, mult, y - 1, |m[y - 1]|, ClusterInRows(m, from, range, weight, mult, y - 1))
  }

  function BestCluster(m: seq<seq<int>>, from: Pos, range: int, weight: Weight, mult: real): Best {
    ClusterInRows(m, from, range, weight, mult, |m|)
  }

  /** `find_best_cluster`: nested loops over the rows and entries of the score matrix. */
  method FindBestCluster(m: seq<seq<int>>, turnsToNight: int, cooldown: int, from: Pos, weight: Weight, mult: real)
    returns (bestPosition: Pos, bestValue: real)
    requires cooldown > 0
    ensures (bestPosition, bestValue) == BestCluster(m, from, TravelRange(turnsToNight, cooldown), weight, mult)
  {
    var travelRange := Max(0, turnsToNight / cooldown - 2);
    bestPosition := from;
    bestValue := -1.0;
    var y := 0;
    while y < |m|
      invariant 0 <= y <= |m|
      invariant (bestPosition, bestValue) == ClusterInRows(m, from, travelRange, weight, mult, y)
    {
      var row := m[y];
      var x := 0;
      while x < |row|
        invariant 0 <= x <= |row|
        invariant (bestPosition, bestValue)
                  == ClusterInRow(m, from, travelRange, weight, mult, y, x, ClusterInRows(m, from, travelRange, weight, mult, y))
      {
        var score := row[x];
        if score > 0 {
          var distance := Max(1, Abs(from.x - x) + Abs(from.y - y));
          if distance <= travelRange {
            var cellValue := weight(mult, score, distance);
            if cellValue > bestValue {
              bestValue := cellValue;
              bestPosition := Pos(x, y);
            }
          }
        }
        x := x + 1;
      }
      y := y + 1;
    }
  }

  /** `c` comes before (x, y) in the row-major scan. */
  predicate Before(c: Pos, x: int, y: int) {
    c.y < y || (c.y == y && c.x < x)
  }

  /** What a scan of every cell before (x, y) has established. */
  ghost predicate BestSoFar(m: seq<seq<int>>, from: Pos, range: int, weight: Weight, mult: real, x: int, y: int, acc: Best) {
    && (acc.1 == -1.0 || acc.1 > 0.0)
    && (acc.1 == -1.0 ==> acc.0 == from && forall c: Pos :: IsCandidate(m, from, range, c.x, c.y) ==> !Before(c, x, y))
    && (acc.1 != -1.0 ==>
          var p := acc.0;
          && IsCandidate(m, from, range, p.x, p.y) && Before(p, x, y)
          && acc.1 == CellWeight(m, from, weight, mult, p.x, p.y)
          && (forall c: Pos :: IsCandidate(m, from, range, c.x, c.y) && Before(c, x, y) ==>
                CellWeight(m, from, weight, mult, c.x, c.y) <= acc.1)
          && (forall c: Pos :: IsCandidate(m, from, range, c.x, c.y) && Before(c, p.x, p.y) ==>
                CellWeight(m, from, weight, mult, c.x, c.y) < acc.1))
  }

  lemma {:induction false} ClusterInRowSound(m: seq<seq<int>>, from: Pos, range: int, weight: Weight, mult: real, y: int, x: nat, acc: Best)
    requires 0 <= y < |m| && x <= |m[y]|
    requires BestSoFar(m, from, range, weight, mult, 0, y, acc)
    ensures BestSoFar(m, from, range, weight, mult, x, y, ClusterInRow(m, from, range, weight, mult, y, x, acc))
  {
    if x > 0 {
      ClusterInRowSound(m, from, range, weight, mult, y, x - 1, acc);
      ClusterRowStep(m, from, range, weight, mult, y, x, acc);
    }
  }

  lemma ClusterRowStep(m: seq<seq<int>>, from: Pos, range: int, weight: Weight, mult: real, y: int, x: nat, acc: Best)
    requires 0 <= y < |m| && 0 < x <= |m[y]|
    requires BestSoFar(m, from, range, weight, mult, x - 1, y, ClusterInRow(m, from, range, weight, mult, y, x - 1, acc))
    ensures BestSoFar(m, from, range, weight, mult, x, y, ClusterInRow(m, from, range, weight, mult, y, x, acc))
  {
    var prev := x - 1;
    ClusterStepSound(m, from, range, weight, mult, y, prev, ClusterInRow(m, from, range, weight, mult, y, prev, acc));
  }

  /** Scanning the cell (x, y) extends what the scan has established to the next cell. */
  lemma ClusterStepSound(m: seq<seq<int>>, from: Pos, range: int, weight: Weight, mult: real, y: int, x: nat, acc: Best)
    requires 0 <= y < |m| && x < |m[y]|
    requires BestSoFar(m, from, range, weight, mult, x, y, acc)
    ensures BestSoFar(m, from, range, weight, mult, x + 1, y, ClusterStep(m, from, range, weight, mult, x, y, acc))
  {
  }

  lemma {:induction false} ClusterInRowsSound(m: seq<seq<int>>, from: Pos, range: int, weight: Weight, mult: real, y: nat)
    requires y <= |m|
    ensures BestSoFar(m, from, range, weight, mult, 0, y, ClusterInRows(m, from, range, weight, mult, y))
  {
    if y > 0 {
      ClusterInRowsSound(m, from, range, weight, mult, y - 1);
      var acc := ClusterInRows(m, from, range, weight, mult, y - 1);
      ClusterInRowSound(m, from, range, weight, mult, y - 1, |m[y - 1]|, acc);
      var r := ClusterInRows(m, from, range, weight, mult, y);
      forall c: Pos | IsCandidate(m, from, range, c.x, c.y) && Before(c, |m[y - 1]|, y - 1)
        ensures Before(c, 0, y)
      {
      }
      forall c: Pos | IsCandidate(m, from, range, c.x, c.y) && Before(c, 0, y)
        ensures Before(c, |m[y - 1]|, y - 1)
      {
      }
    }
  }

  /** The search returns the heaviest candidate, the first in row-major order
      among equally heavy ones; with no candidate it returns the unit's own
      position and -1. Any returned cell lies within travel range. */
  lemma BestClusterIsArgmax(m: seq<seq<int>>, from: Pos, range: int, weight: Weight, mult: real)
    ensures var (p, v) := BestCluster(m, from, range, weight, mult);
            && (v == -1.0 || v > 0.0)
            && (v == -1.0 <==> forall c: Pos :: !IsCandidate(m, from, range, c.x, c.y))
            && (v == -1.0 ==> p == from)
            && (v != -1.0 ==>
                  && IsCandidate(m, from, range, p.x, p.y)
                  && v == CellWeight(m, from, weight, mult, p.x, p.y)
                  && (forall c: Pos :: IsCandidate(m, from, range, c.x, c.y) ==> CellWeight(m, from, weight, mult, c.x, c.y) <= v)
                  && (forall c: Pos :: IsCandidate(m, from, range, c.x, c.y) && Before(c, p.x, p.y) ==>
                        CellWeight(m, from, weight, mult, c.x, c.y) < v))
  {
    ClusterInRowsSound(m, from, range, weight, mult, |m|);
    var (p, v) := BestCluster(m, from, range, weight, mult);
    forall c: Pos | IsCandidate(m, from, range, c.x, c.y)
      ensures Before(c, 0, |m|)
    {
    }
    if v == -1.0 {
    } else {
      assert IsCandidate(m, from, range, p.x, p.y);
    }
  }

  /** A returned target is never farther than the unit's travel range. */
  lemma BestClusterWithinRange(m: seq<seq<int>>, turnsToNight: int, cooldown: int, from: Pos, weight: Weight, mult: real)
    requires cooldown > 0
    ensures var (p, v) := BestCluster(m, from, TravelRange(turnsToNight, cooldown), weight, mult);
            v != -1.0 ==> && Distance(from, p) <= TravelRange(turnsToNight, cooldown)
                          && 0 <= p.y < |m| && 0 <= p.x < |m[p.y]| && m[p.y][p.x] > 0
  {
    BestClusterIsArgmax(m, from, TravelRange(turnsToNight, cooldown), weight, mult);
  }
}
