/** The per-turn matrices of lux/game.py: resource scores and rates, the
    maxpool (local dominance) filter, city-tile counts, empty tiles, and the
    search for the nearest empty tile. */
module LuxGame {
  import opened LuxBasics

  datatype ResourceKind = Wood | Coal | Uranium

  datatype Resource = Resource(kind: ResourceKind, amount: nat)

  /** One map cell: its resource, if any, and whether a city tile (of either team) stands on it. */
  datatype Cell = Cell(resource: Option<Resource>, hasCityTile: bool)

  type GameMap = seq<seq<Cell>>

  /** What the player has researched. */
  datatype Research = Research(coal: bool, uranium: bool)

  /** RESOURCE_TO_FUEL_RATE and WORKER_COLLECTION_RATE of the game constants. */
  datatype FuelTable = FuelTable(
    woodFuel: nat, coalFuel: nat, uraniumFuel: nat,
    woodRate: nat, coalRate: nat, uraniumRate: nat)

  function FuelOf(t: FuelTable, k: ResourceKind): nat {
    match k
    case Wood => t.woodFuel
    case Coal => t.coalFuel
    case Uranium => t.uraniumFuel
  }

  function RateOf(t: FuelTable, k: ResourceKind): nat {
    match k
    case Wood => t.woodRate
    case Coal => t.coalRate
    case Uranium => t.uraniumRate
  }

  predicate FuelPositive(t: FuelTable) {
    t.woodFuel > 0 && t.coalFuel > 0 && t.uraniumFuel > 0
  }

  /** Which of the two matrices a neighbourhood sum feeds. */
  datatype Measure = Amount | CollectionRate

  /** `cell.has_resource()` of the game kit: a resource with some amount left. */
  predicate HasResource(c: Cell) {
    c.resource.Some? && c.resource.value.amount > 0
  }

  /** A resource the player may mine: coal only once researched, likewise uranium. */
  predicate Mineable(c: Cell, r: Research) {
    && HasResource(c)
    && !(c.resource.value.kind == Coal && !r.coal)
    && !(c.resource.value.kind == Uranium && !r.uranium)
  }

  /** What the cell at (xx, yy) adds to a neighbourhood sum: nothing when it is
      off the map, has no resource, or has one the player cannot mine yet. */
  function Contribution(g: GameMap, w: nat, h: nat, r: Research, t: FuelTable, m: Measure, xx: int, yy: int): nat
    requires IsGrid(g, w, h)
  {
    if !InGrid(xx, yy, w, h) || !Mineable(g[yy][xx], r) then 0
    else
      var res := g[yy][xx].resource.value;
      FuelOf(t, res.kind) * (if m == Amount then res.amount else RateOf(t, res.kind))
  }

  /** The order in which the source visits a cell and its neighbours. */
  const ScoreOffsets: seq<(int, int)> := [(0, 0), (0, -1), (0, 1), (1, 0), (-1, 0)]

  /** The contributions of the first `k` offsets of `ScoreOffsets`. */
  function PartialSum(g: GameMap, w: nat, h: nat, r: Research, t: FuelTable, m: Measure, x: int, y: int, k: nat): int
    requires IsGrid(g, w, h) && k <= |ScoreOffsets|
  {
    if k == 0 then 0
    else PartialSum(g, w, h, r, t, m, x, y, k - 1)
         + Contribution(g, w, h, r, t, m, x + ScoreOffsets[k - 1].0, y + ScoreOffsets[k - 1].1)
  }

  /** The value of cell (x, y): the cell and its four orthogonal neighbours. */
  function NeighbourhoodSum(g: GameMap, w: nat, h: nat, r: Research, t: FuelTable, m: Measure, x: int, y: int): int
    requires IsGrid(g, w, h)
  {
    Contribution(g, w, h, r, t, m, x, y)
    + Contribution(g, w, h, r, t, m, x, y - 1)
    + Contribution(g, w, h, r, t, m, x, y + 1)
    + Contribution(g, w, h, r, t, m, x + 1, y)
    + Contribution(g, w, h, r, t, m, x - 1, y)
  }

  lemma PartialSumComplete(g: GameMap, w: nat, h: nat, r: Research, t: FuelTable, m: Measure, x: int, y: int)
    requires IsGrid(g, w, h)
    ensures PartialSum(g, w, h, r, t, m, x, y, 5) == NeighbourhoodSum(g, w, h, r, t, m, x, y)
  {
    assert PartialSum(g, w, h, r, t, m, x, y, 1) == Contribution(g, w, h, r, t, m, x, y);
    assert PartialSum(g, w, h, r, t, m, x, y, 2) == PartialSum(g, w, h, r, t, m, x, y, 1) + Contribution(g, w, h, r, t, m, x, y - 1);
    assert PartialSum(g, w, h, r, t, m, x, y, 3) == PartialSum(g, w, h, r, t, m, x, y, 2) + Contribution(g, w, h, r, t, m, x, y + 1);
    assert PartialSum(g, w, h, r, t, m, x, y, 4) == PartialSum(g, w, h, r, t, m, x, y, 3) + Contribution(g, w, h, r, t, m, x + 1, y);
  }

  /** `calculate_resource_scores_and_rates_matrix`: both matrices in one pass. */
  method ResourceScoresAndRates(g: GameMap, w: nat, h: nat, r: Research, t: FuelTable)
    returns (scores: seq<seq<int>>, rates: seq<seq<int>>)
    requires IsGrid(g, w, h)
    ensures IsGrid(scores, w, h) && IsGrid(rates, w, h)
    ensures forall y, x :: InGrid(x, y, w, h) ==>
              scores[y][x] == NeighbourhoodSum(g, w, h, r, t, Amount, x, y)
              && rates[y][x] == NeighbourhoodSum(g, w, h, r, t, CollectionRate, x, y)
  {
    scores, rates := [], [];
    var y := 0;
    while y < h
      invariant 0 <= y <= h && |scores| == y && |rates| == y
      invariant forall yy :: 0 <= yy < y ==> |scores[yy]| == w && |rates[yy]| == w
      invariant forall yy, x :: 0 <= yy < y && 0 <= x < w ==>
                  scores[yy][x] == NeighbourhoodSum(g, w, h, r, t, Amount, x, yy)
                  && rates[yy][x] == NeighbourhoodSum(g, w, h, r, t, CollectionRate, x, yy)
    {
      var scoreRow, rateRow := [], [];
      var x := 0;
      while x < w
        invariant 0 <= x <= w && |scoreRow| == x && |rateRow| == x
        invariant forall xx :: 0 <= xx < x ==>
                    scoreRow[xx] == NeighbourhoodSum(g, w, h, r, t, Amount, xx, y)
                    && rateRow[xx] == NeighbourhoodSum(g, w, h, r, t, CollectionRate, xx, y)
      {
        var scoreCell, rateCell := CellSums(g, w, h, r, t, x, y);
        scoreRow, rateRow := scoreRow + [scoreCell], rateRow + [rateCell];
        x := x + 1;
      }
      scores, rates := scores + [scoreRow], rates + [rateRow];
      y := y + 1;
    }
  }

  /** The innermost loop of `get_resource_scores_and_rates`: fuel amount and
      fuel collection rate summed over the neighbourhood of (x, y). */
  method CellSums(g: GameMap, w: nat, h: nat, r: Research, t: FuelTable, x: int, y: int)
    returns (scoreCell: int, rateCell: int)
    requires IsGrid(g, w, h)
    ensures scoreCell == NeighbourhoodSum(g, w, h, r, t, Amount, x, y)
    ensures rateCell == NeighbourhoodSum(g, w, h, r, t, CollectionRate, x, y)
  {
    scoreCell, rateCell := 0, 0;
    for k := 0 to |ScoreOffsets|
      invariant scoreCell == PartialSum(g, w, h, r, t, Amount, x, y, k)
      invariant rateCell == PartialSum(g, w, h, r, t, CollectionRate, x, y, k)
    {
      var (dx, dy) := ScoreOffsets[k];
      var xx, yy := x + dx, y + dy;
      if InGrid(xx, yy, w, h) && Mineable(g[yy][xx], r) {
        var res := g[yy][xx].resource.value;
        scoreCell := scoreCell + FuelOf(t, res.kind) * res.amount;
        rateCell := rateCell + FuelOf(t, res.kind) * RateOf(t, res.kind);
      }
    }
    PartialSumComplete(g, w, h, r, t, Amount, x, y);
    PartialSumComplete(g, w, h, r, t, CollectionRate, x, y);
  }

  /** The cell at (xx, yy) holds a resource the player can mine, with some left. */
  predicate Feeds(g: GameMap, w: nat, h: nat, r: Research, xx: int, yy: int)
    requires IsGrid(g, w, h)
  {
    InGrid(xx, yy, w, h) && Mineable(g[yy][xx], r)
  }

  lemma ContributionPositive(g: GameMap, w: nat, h: nat, r: Research, t: FuelTable, xx: int, yy: int)
    requires IsGrid(g, w, h) && FuelPositive(t)
    ensures Contribution(g, w, h, r, t, Amount, xx, yy) > 0 <==> Feeds(g, w, h, r, xx, yy)
  {
    if Feeds(g, w, h, r, xx, yy) {
      var res := g[yy][xx].resource.value;
      assert FuelOf(t, res.kind) >= 1;
      assert FuelOf(t, res.kind) * res.amount >= res.amount;
    }
  }

  /** A cell scores above zero exactly when it or one of its in-bounds
      neighbours holds a resource the player can mine. */
  lemma ScorePositiveIff(g: GameMap, w: nat, h: nat, r: Research, t: FuelTable, x: int, y: int)
    requires IsGrid(g, w, h) && FuelPositive(t)
    ensures NeighbourhoodSum(g, w, h, r, t, Amount, x, y) > 0 <==>
              exists k :: 0 <= k < |ScoreOffsets| && Feeds(g, w, h, r, x + ScoreOffsets[k].0, y + ScoreOffsets[k].1)
  {
    ContributionPositive(g, w, h, r, t, x, y);
    ContributionPositive(g, w, h, r, t, x, y - 1);
    ContributionPositive(g, w, h, r, t, x, y + 1);
    ContributionPositive(g, w, h, r, t, x + 1, y);
    ContributionPositive(g, w, h, r, t, x - 1, y);
    if NeighbourhoodSum(g, w, h, r, t, Amount, x, y) > 0 {
      if Feeds(g, w, h, r, x, y) { assert ScoreOffsets[0] == (0, 0); }
      else if Feeds(g, w, h, r, x, y - 1) { assert ScoreOffsets[1] == (0, -1); }
      else if Feeds(g, w, h, r, x, y + 1) { assert ScoreOffsets[2] == (0, 1); }
      else if Feeds(g, w, h, r, x + 1, y) { assert ScoreOffsets[3] == (1, 0); }
      else { assert ScoreOffsets[4] == (-1, 0); }
    }
  }

  /** Research never lowers what one cell contributes, and raises it only on a coal or uranium cell. */
  lemma ContributionResearch(g: GameMap, w: nat, h: nat, r1: Research, r2: Research, t: FuelTable, m: Measure, xx: int, yy: int)
    requires IsGrid(g, w, h)
    requires (r1.coal ==> r2.coal) && (r1.uranium ==> r2.uranium)
    ensures Contribution(g, w, h, r1, t, m, xx, yy) <= Contribution(g, w, h, r2, t, m, xx, yy)
    ensures Contribution(g, w, h, r1, t, m, xx, yy) < Contribution(g, w, h, r2, t, m, xx, yy) ==>
              InGrid(xx, yy, w, h) && HasResource(g[yy][xx]) && g[yy][xx].resource.value.kind != Wood
  {
  }

  /** Research never lowers a score or a rate. */
  lemma ResearchNeverLowersScores(g: GameMap, w: nat, h: nat, r1: Research, r2: Research, t: FuelTable, m: Measure, x: int, y: int)
    requires IsGrid(g, w, h)
    requires (r1.coal ==> r2.coal) && (r1.uranium ==> r2.uranium)
    ensures NeighbourhoodSum(g, w, h, r1, t, m, x, y) <= NeighbourhoodSum(g, w, h, r2, t, m, x, y)
    ensures NeighbourhoodSum(g, w, h, r1, t, m, x, y) < NeighbourhoodSum(g, w, h, r2, t, m, x, y) ==>
              exists k :: 0 <= k < |ScoreOffsets| && InGrid(x + ScoreOffsets[k].0, y + ScoreOffsets[k].1, w, h)
                && HasResource(g[y + ScoreOffsets[k].1][x + ScoreOffsets[k].0])
                && g[y + ScoreOffsets[k].1][x + ScoreOffsets[k].0].resource.value.kind != Wood
  {
    ContributionResearch(g, w, h, r1, r2, t, m, x, y);
    ContributionResearch(g, w, h, r1, r2, t, m, x, y - 1);
    ContributionResearch(g, w, h, r1, r2, t, m, x, y + 1);
    ContributionResearch(g, w, h, r1, r2, t, m, x + 1, y);
    ContributionResearch(g, w, h, r1, r2, t, m, x - 1, y);
    var lt := NeighbourhoodSum(g, w, h, r1, t, m, x, y) < NeighbourhoodSum(g, w, h, r2, t, m, x, y);
    if lt {
      var k: int;
      if Contribution(g, w, h, r1, t, m, x, y) < Contribution(g, w, h, r2, t, m, x, y) { k := 0; }
      else if Contribution(g, w, h, r1, t, m, x, y - 1) < Contribution(g, w, h, r2, t, m, x, y - 1) { k := 1; }
      else if Contribution(g, w, h, r1, t, m, x, y + 1) < Contribution(g, w, h, r2, t, m, x, y + 1) { k := 2; }
      else if Contribution(g, w, h, r1, t, m, x + 1, y) < Contribution(g, w, h, r2, t, m, x + 1, y) { k := 3; }
      else { k := 4; }
      assert Contribution(g, w, h, r1, t, m, x + ScoreOffsets[k].0, y + ScoreOffsets[k].1)
             < Contribution(g, w, h, r2, t, m, x + ScoreOffsets[k].0, y + ScoreOffsets[k].1);
    }
  }

  // ---------------------------------------------------------------------------
  // Maxpool

  /** The order in which the maxpool visits the neighbours of a cell. */
  const PoolOffsets: seq<(int, int)> := [(1, 0), (0, 1), (0, 0), (-1, 0), (0, -1)]

  /** The source's tie-broken comparison `n + dx * 0.2 + dy * 0.1 > s`, in exact arithmetic. */
  predicate Beats(n: int, s: int, dx: int, dy: int) {
    (n as real) + (dx as real) * 0.2 + (dy as real) * 0.1 > s as real
  }

  /** With integer scores the tie-break only decides ties: an east or south
      neighbour wins a tie, a west or north neighbour must be strictly richer.
      The offset (0, 0) compares the cell with itself, so it never wins. */
  lemma BeatsIntegerForm(n: int, s: int, k: nat)
    requires k < |PoolOffsets|
    ensures Beats(n, s, PoolOffsets[k].0, PoolOffsets[k].1) <==>
              if k <= 1 then n >= s else n > s
  {
    var (dx, dy) := PoolOffsets[k];
    if k == 0 { assert (dx, dy) == (1, 0); }
    else if k == 1 { assert (dx, dy) == (0, 1); }
    else if k == 2 { assert (dx, dy) == (0, 0); }
    else if k == 3 { assert (dx, dy) == (-1, 0); }
    else { assert (dx, dy) == (0, -1); }
  }

  /** The neighbour at `PoolOffsets[k]` of cell (x, y) is on the map and beats it. */
  predicate BeatenFrom(s: seq<seq<int>>, w: nat, h: nat, x: int, y: int, k: nat)
    requires IsGrid(s, w, h) && InGrid(x, y, w, h) && k < |PoolOffsets|
  {
    var (dx, dy) := PoolOffsets[k];
    InGrid(x + dx, y + dy, w, h) && Beats(s[y + dy][x + dx], s[y][x], dx, dy)
  }

  predicate Dominated(s: seq<seq<int>>, w: nat, h: nat, x: int, y: int)
    requires IsGrid(s, w, h) && InGrid(x, y, w, h)
  {
    exists k :: 0 <= k < |PoolOffsets| && BeatenFrom(s, w, h, x, y, k)
  }

  /** The maxpool entry of (x, y): its own score unless some in-bounds neighbour dominates it. */
  function MaxpoolValue(s: seq<seq<int>>, w: nat, h: nat, x: int, y: int): (v: int)
    requires IsGrid(s, w, h) && InGrid(x, y, w, h)
    ensures v == 0 || v == s[y][x]
  {
    if Dominated(s, w, h, x, y) then 0 else s[y][x]
  }

  /** `calculate_resource_maxpool_matrix`, with the loop keeping the own score
      only when no in-bounds neighbour dominates (see the findings in README.md). */
  method MaxpoolMatrix(s: seq<seq<int>>, w: nat, h: nat) returns (pool: seq<seq<int>>)
    requires IsGrid(s, w, h)
    ensures IsGrid(pool, w, h)
    ensures forall y, x :: InGrid(x, y, w, h) ==> pool[y][x] == MaxpoolValue(s, w, h, x, y)
  {
    pool := [];
    var y := 0;
    while y < h
      invariant 0 <= y <= h && |pool| == y
      invariant forall yy :: 0 <= yy < y ==> |pool[yy]| == w
      invariant forall yy, x :: 0 <= yy < y && 0 <= x < w ==> pool[yy][x] == MaxpoolValue(s, w, h, x, yy)
    {
      var row := [];
      var x := 0;
      while x < w
        invariant 0 <= x <= w && |row| == x
        invariant forall xx :: 0 <= xx < x ==> row[xx] == MaxpoolValue(s, w, h, xx, y)
      {
        var kept := true;
        var k := 0;
        while k < |PoolOffsets| && kept
          invariant 0 <= k <= |PoolOffsets|
          invariant kept <==> forall j :: 0 <= j < k ==> !BeatenFrom(s, w, h, x, y, j)
        {
          var (dx, dy) := PoolOffsets[k];
          var xx, yy := x + dx, y + dy;
          assert BeatenFrom(s, w, h, x, y, k) <==> InGrid(xx, yy, w, h) && Beats(s[yy][xx], s[y][x], dx, dy);
          if InGrid(xx, yy, w, h) && Beats(s[yy][xx], s[y][x], dx, dy) {
            kept := false;
          }
          k := k + 1;
        }
        row := row + [if kept then s[y][x] else 0];
        x := x + 1;
      }
      pool := pool + [row];
      y := y + 1;
    }
  }

  /** A cell with a strictly richer in-bounds orthogonal neighbour is suppressed. */
  lemma RicherNeighbourSuppresses(s: seq<seq<int>>, w: nat, h: nat, x: int, y: int, d: Direction)
    requires IsGrid(s, w, h) && InGrid(x, y, w, h) && d != Center
    requires var n := Translate(Pos(x, y), d); InGrid(n.x, n.y, w, h) && s[n.y][n.x] > s[y][x]
    ensures MaxpoolValue(s, w, h, x, y) == 0
  {
    var k := match d case East => 0 case South => 1 case West => 3 case North => 4 case Center => 2;
    BeatsIntegerForm(s[y + PoolOffsets[k].1][x + PoolOffsets[k].0], s[y][x], k);
    assert BeatenFrom(s, w, h, x, y, k);
  }

  /** A cell whose in-bounds orthogonal neighbours are all strictly poorer keeps its score. */
  lemma StrictLocalMaximumKept(s: seq<seq<int>>, w: nat, h: nat, x: int, y: int)
    requires IsGrid(s, w, h) && InGrid(x, y, w, h)
    requires forall d: Direction :: d != Center && InGrid(Translate(Pos(x, y), d).x, Translate(Pos(x, y), d).y, w, h)
               ==> s[Translate(Pos(x, y), d).y][Translate(Pos(x, y), d).x] < s[y][x]
    ensures MaxpoolValue(s, w, h, x, y) == s[y][x]
  {
    forall k | 0 <= k < |PoolOffsets|
      ensures !BeatenFrom(s, w, h, x, y, k)
    {
      var d := [East, South, Center, West, North][k];
      assert Translate(Pos(x, y), d) == Pos(x + PoolOffsets[k].0, y + PoolOffsets[k].1);
      if InGrid(x + PoolOffsets[k].0, y + PoolOffsets[k].1, w, h) {
        BeatsIntegerForm(s[y + PoolOffsets[k].1][x + PoolOffsets[k].0], s[y][x], k);
      }
    }
  }

  /** Of two orthogonally adjacent cells, at most one keeps a non-zero maxpool
      entry: the tie-break makes exactly one of them dominate the other. */
  lemma AdjacentCellsNotBothKept(s: seq<seq<int>>, w: nat, h: nat, x: int, y: int, d: Direction)
    requires IsGrid(s, w, h) && InGrid(x, y, w, h) && (d == East || d == South)
    requires var n := Translate(Pos(x, y), d); InGrid(n.x, n.y, w, h)
    ensures var n := Translate(Pos(x, y), d);
            MaxpoolValue(s, w, h, x, y) == 0 || MaxpoolValue(s, w, h, n.x, n.y) == 0
  {
    var n := Translate(Pos(x, y), d);
    var here, back := if d == East then 0 else 1, if d == East then 3 else 4;
    BeatsIntegerForm(s[n.y][n.x], s[y][x], here);
    BeatsIntegerForm(s[y][x], s[n.y][n.x], back);
    if s[n.y][n.x] >= s[y][x] {
      assert BeatenFrom(s, w, h, x, y, here);
    } else {
      assert BeatenFrom(s, w, h, n.x, n.y, back);
    }
  }

  /** The maxpool loop as lux/game.py:220-229 writes it, for one cell, from
      offset `k` on, with `entry` the value assigned so far: the `if/else` sits
      inside the `for`, so every non-dominating neighbour visited before the
      first dominating one assigns the own score, and the comparison reads the
      swapped entry `s[x][y]`. */
  function MaxpoolCellAsWritten(s: seq<seq<int>>, w: nat, h: nat, x: int, y: int, k: nat, entry: int): int
    requires IsGrid(s, w, h) && InGrid(x, y, w, h) && InGrid(y, x, w, h)
    decreases |PoolOffsets| - k
  {
    if k >= |PoolOffsets| then entry
    else
      var (dx, dy) := PoolOffsets[k];
      if !InGrid(x + dx, y + dy, w, h) then MaxpoolCellAsWritten(s, w, h, x, y, k + 1, entry)
      else if Beats(s[y + dy][x + dx], s[x][y], dx, dy) then entry
      else MaxpoolCellAsWritten(s, w, h, x, y, k + 1, s[y][x])
  }

  /** A symmetric 3x3 score matrix (so the swapped index reads the same value)
      on which the loop as written keeps the centre's score 3 although its west
      neighbour scores 5; the intended filter suppresses it. */
  lemma MaxpoolAsWrittenKeepsDominatedCell()
    ensures var s := [[0, 5, 0], [5, 3, 0], [0, 0, 0]];
            MaxpoolCellAsWritten(s, 3, 3, 1, 1, 0, 0) == 3 && MaxpoolValue(s, 3, 3, 1, 1) == 0
  {
    var s := [[0, 5, 0], [5, 3, 0], [0, 0, 0]];
    assert IsGrid(s, 3, 3);
    assert Beats(s[1][0], s[1][1], -1, 0);
    assert BeatenFrom(s, 3, 3, 1, 1, 3);
    assert !Beats(s[1][2], s[1][1], 1, 0);
    assert !Beats(s[2][1], s[1][1], 0, 1);
    assert !Beats(s[1][1], s[1][1], 0, 0);
    assert MaxpoolCellAsWritten(s, 3, 3, 1, 1, 3, 3) == 3;
    assert MaxpoolCellAsWritten(s, 3, 3, 1, 1, 2, 3) == 3;
    assert MaxpoolCellAsWritten(s, 3, 3, 1, 1, 1, 3) == 3;
  }

  // ---------------------------------------------------------------------------
  // City tiles and empty tiles

  /** The zero matrix the scores, maxpool, city-tile and empty-tile
      computations are meant to start from: `height` rows of `width` zeros. */
  function ZeroMatrix(w: nat, h: nat): (z: seq<seq<int>>)
    ensures IsGrid(z, w, h)
    ensures forall y, x :: InGrid(x, y, w, h) ==> z[y][x] == 0
  {
    seq(h, _ => seq(w, _ => 0))
  }

  /** The allocation as lux/game.py:181-182 (and 217-218, 236-237, 247-248) writes
      it: `[[0 for _ in range(width) for _ in range(height)]]` is one list of
      width * height zeros wrapped in a single row. */
  function ZeroMatrixAsWritten(w: nat, h: nat): seq<seq<int>> {
    [seq(w * h, _ => 0)]
  }

  /** On a map of two or more rows the matrix as written has a single row, so
      the first write to row 1 (`matrix[1][x] = ...`) is out of range, while
      the intended matrix has every row. */
  lemma ZeroMatrixAsWrittenHasOneRow(w: nat, h: nat)
    requires w >= 1 && h >= 2
    ensures |ZeroMatrixAsWritten(w, h)| == 1 && !IsGrid(ZeroMatrixAsWritten(w, h), w, h)
    ensures InGrid(0, 1, w, h) && |ZeroMatrix(w, h)| == h
  {
  }

  /** `get_city_tile_matrix`: how many of the player's city tiles stand on each cell. */
  method CityTileMatrix(tiles: seq<Pos>, w: nat, h: nat) returns (counts: seq<seq<int>>)
    requires forall i :: 0 <= i < |tiles| ==> InGrid(tiles[i].x, tiles[i].y, w, h)
    ensures IsGrid(counts, w, h)
    ensures forall y, x :: InGrid(x, y, w, h) ==> counts[y][x] == multiset(tiles)[Pos(x, y)]
  {
    counts := ZeroMatrix(w, h);
    var i := 0;
    while i < |tiles|
      invariant 0 <= i <= |tiles|
      invariant IsGrid(counts, w, h)
      invariant forall y, x :: InGrid(x, y, w, h) ==> counts[y][x] == multiset(tiles[..i])[Pos(x, y)]
    {
      var p := tiles[i];
      CountStep(counts, tiles, i, w, h);
      counts := counts[p.y := counts[p.y][p.x := counts[p.y][p.x] + 1]];
      i := i + 1;
    }
    assert tiles[..i] == tiles;
  }

  /** Counting tile `i` adds one at its own cell and nothing elsewhere. */
  lemma CountStep(counts: seq<seq<int>>, tiles: seq<Pos>, i: int, w: nat, h: nat)
    requires 0 <= i < |tiles| && InGrid(tiles[i].x, tiles[i].y, w, h) && IsGrid(counts, w, h)
    requires forall y, x :: InGrid(x, y, w, h) ==> counts[y][x] == multiset(tiles[..i])[Pos(x, y)]
    ensures var p := tiles[i];
            var after := counts[p.y := counts[p.y][p.x := counts[p.y][p.x] + 1]];
            && IsGrid(after, w, h)
            && forall y, x :: InGrid(x, y, w, h) ==> after[y][x] == multiset(tiles[..i + 1])[Pos(x, y)]
  {
    var p := tiles[i];
    var after := counts[p.y := counts[p.y][p.x := counts[p.y][p.x] + 1]];
    assert tiles[..i + 1] == tiles[..i] + [p];
    forall y, x | InGrid(x, y, w, h)
      ensures after[y][x] == multiset(tiles[..i + 1])[Pos(x, y)]
    {
      if Pos(x, y) == p {
        assert after[y][x] == counts[y][x] + 1;
      } else {
        assert after[y][x] == counts[y][x];
      }
    }
  }

  /** A tile with neither a resource nor a city tile. */
  predicate IsEmptyCell(c: Cell) {
    !HasResource(c) && !c.hasCityTile
  }

  /** `get_empty_tile_matrix`: 1 on empty tiles, 0 elsewhere. */
  method EmptyTileMatrix(g: GameMap, w: nat, h: nat) returns (empty: seq<seq<int>>)
    requires IsGrid(g, w, h)
    ensures IsGrid(empty, w, h)
    ensures forall y, x :: InGrid(x, y, w, h) ==> empty[y][x] == if IsEmptyCell(g[y][x]) then 1 else 0
  {
    empty := [];
    var y := 0;
    while y < h
      invariant 0 <= y <= h && |empty| == y
      invariant forall yy :: 0 <= yy < y ==> |empty[yy]| == w
      invariant forall yy, x :: 0 <= yy < y && 0 <= x < w ==>
                  empty[yy][x] == if IsEmptyCell(g[yy][x]) then 1 else 0
    {
      var row := [];
      var x := 0;
      while x < w
        invariant 0 <= x <= w && |row| == x
        invariant forall xx :: 0 <= xx < x ==> row[xx] == if IsEmptyCell(g[y][xx]) then 1 else 0
      {
        var cell := g[y][x];
        var entry := 0;
        if !HasResource(cell) && !cell.hasCityTile {
          entry := 1;
        }
        row := row + [entry];
        x := x + 1;
      }
      empty := empty + [row];
      y := y + 1;
    }
  }

  // ---------------------------------------------------------------------------
  // Nearest empty tile

  /** The search state: the nearest empty tile found so far and its distance. */
  type Nearest = (Option<Pos>, int)

  /** One step of the row-major scan: a strictly closer empty tile replaces the current one. */
  function NearestStep(e: seq<seq<int>>, w: nat, h: nat, from: Pos, x: int, y: int, acc: Nearest): Nearest
    requires IsGrid(e, w, h) && InGrid(x, y, w, h)
  {
    var d := Distance(Pos(x, y), from);
    if e[y][x] == 1 && d < acc.1 then (Some(Pos(x, y)), d) else acc
  }

  /** Scan the first `x` cells of row `y`, starting from `acc`. */
  function NearestInRow(e: seq<seq<int>>, w: nat, h: nat, from: Pos, y: int, x: nat, acc: Nearest): Nearest
    requires IsGrid(e, w, h) && 0 <= y < h && x <= w
  {
    if x == 0 then acc else NearestStep(e, w, h, from, x - 1, y, NearestInRow(e, w, h, from, y, x - 1, acc))
  }

  /** Scan the first `y` rows, starting from no tile at distance width + height. */
  function NearestInRows(e: seq<seq<int>>, w: nat, h: nat, from: Pos, y: nat): Nearest
    requires IsGrid(e, w, h) && y <= h
  {
    if y == 0 then (None, w + h) else NearestInRow(e, w, h, from, y - 1, w, NearestInRows(e, w, h, from, y - 1))
  }

  function NearestEmpty(e: seq<seq<int>>, w: nat, h: nat, from: Pos): Nearest
    requires IsGrid(e, w, h)
  {
    NearestInRows(e, w, h, from, h)
  }

  /** `get_nearest_empty_tile`: a running minimum over the empty-tile matrix. */
  method NearestEmptyTile(e: seq<seq<int>>, w: nat, h: nat, from: Pos) returns (nearest: Option<Pos>, distance: int)
    requires IsGrid(e, w, h)
    ensures (nearest, distance) == NearestEmpty(e, w, h, from)
  {
    distance := w + h;
    nearest := None;
    var y := 0;
    while y < h
      invariant 0 <= y <= h
      invariant (nearest, distance) == NearestInRows(e, w, h, from, y)
    {
      var x := 0;
      while x < w
        invariant 0 <= x <= w
        invariant (nearest, distance) == NearestInRow(e, w, h, from, y, x, NearestInRows(e, w, h, from, y))
      {
        if e[y][x] == 1 {
          var position := Pos(x, y);
          var d := Distance(position, from);
          if d < distance {
            distance := d;
            nearest := Some(position);
          }
        }
        x := x + 1;
      }
      y := y + 1;
    }
  }

  predicate IsEmptyAt(e: seq<seq<int>>, w: nat, h: nat, c: Pos)
    requires IsGrid(e, w, h)
  {
    InGrid(c.x, c.y, w, h) && e[c.y][c.x] == 1
  }

  /** `c` comes before (x, y) in row-major order. */
  predicate Before(c: Pos, x: int, y: int) {
    c.y < y || (c.y == y && c.x < x)
  }

  /** What a scan of every cell before (x, y) has established. */
  ghost predicate NearestSoFar(e: seq<seq<int>>, w: nat, h: nat, from: Pos, x: int, y: int, acc: Nearest)
    requires IsGrid(e, w, h)
  {
    && acc.1 <= w + h
    && (forall c :: IsEmptyAt(e, w, h, c) && Before(c, x, y) ==> Distance(c, from) >= acc.1)
    && (acc.0.None? ==> acc.1 == w + h)
    && (acc.0.Some? ==>
          var q := acc.0.value;
          && IsEmptyAt(e, w, h, q) && Before(q, x, y) && acc.1 == Distance(q, from) && acc.1 < w + h
          && forall c :: IsEmptyAt(e, w, h, c) && Before(c, q.x, q.y) ==> Distance(c, from) > acc.1)
  }

  lemma {:induction false} NearestInRowSound(e: seq<seq<int>>, w: nat, h: nat, from: Pos, y: int, x: nat, acc: Nearest)
    requires IsGrid(e, w, h) && 0 <= y < h && x <= w
    requires NearestSoFar(e, w, h, from, 0, y, acc)
    ensures NearestSoFar(e, w, h, from, x, y, NearestInRow(e, w, h, from, y, x, acc))
  {
    if x > 0 {
      NearestInRowSound(e, w, h, from, y, x - 1, acc);
      NearestRowStep(e, w, h, from, y, x, acc);
    }
  }

  /** Scanning the cell (x - 1, y) extends what the scan has established to (x, y). */
  lemma NearestRowStep(e: seq<seq<int>>, w: nat, h: nat, from: Pos, y: int, x: nat, acc: Nearest)
    requires IsGrid(e, w, h) && 0 <= y < h && 0 < x <= w
    requires NearestSoFar(e, w, h, from, x - 1, y, NearestInRow(e, w, h, from, y, x - 1, acc))
    ensures NearestSoFar(e, w, h, from, x, y, NearestInRow(e, w, h, from, y, x, acc))
  {
    var prev := x - 1;
    NearestStepSound(e, w, h, from, y, prev, NearestInRow(e, w, h, from, y, prev, acc));
  }

  lemma NearestStepSound(e: seq<seq<int>>, w: nat, h: nat, from: Pos, y: int, x: nat, acc: Nearest)
    requires IsGrid(e, w, h) && 0 <= y < h && x < w
    requires NearestSoFar(e, w, h, from, x, y, acc)
    ensures NearestSoFar(e, w, h, from, x + 1, y, NearestStep(e, w, h, from, x, y, acc))
  {
  }

  lemma {:induction false} NearestInRowsSound(e: seq<seq<int>>, w: nat, h: nat, from: Pos, y: nat)
    requires IsGrid(e, w, h) && y <= h
    ensures NearestSoFar(e, w, h, from, 0, y, NearestInRows(e, w, h, from, y))
  {
    if y > 0 {
      NearestInRowsSound(e, w, h, from, y - 1);
      var acc := NearestInRows(e, w, h, from, y - 1);
      NearestInRowSound(e, w, h, from, y - 1, w, acc);
    }
  }

  /** The search returns an empty tile at minimal distance, the first in
      row-major order among equally near ones; with no empty tile nearer than
      width + height it returns no tile and that bound. From a tile on the map
      every empty tile is nearer than the bound, so none is found only when
      there is no empty tile at all. */
  lemma NearestEmptyIsNearest(e: seq<seq<int>>, w: nat, h: nat, from: Pos)
    requires IsGrid(e, w, h)
    ensures var (p, d) := NearestEmpty(e, w, h, from);
            && (p.None? ==> d == w + h && forall c :: IsEmptyAt(e, w, h, c) ==> Distance(c, from) >= w + h)
            && (p.Some? ==>
                  && IsEmptyAt(e, w, h, p.value) && d == Distance(p.value, from) && d < w + h
                  && (forall c :: IsEmptyAt(e, w, h, c) ==> Distance(c, from) >= d)
                  && (forall c :: IsEmptyAt(e, w, h, c) && Before(c, p.value.x, p.value.y) ==> Distance(c, from) > d))
            && (InGrid(from.x, from.y, w, h) ==> (p.None? <==> forall c :: !IsEmptyAt(e, w, h, c)))
  {
    NearestInRowsSound(e, w, h, from, h);
    var (p, d) := NearestEmpty(e, w, h, from);
    forall c | IsEmptyAt(e, w, h, c)
      ensures Before(c, 0, h)
    {
    }
  }
}
