/** The table as a value: a column-major grid `g[x][y]` of `xscale` columns,
    each `yscale` long, the neighbour count of `_count_neighbors`, and the
    whole-grid effect of `_prepare_generation` and of `advance_generation`. */
module LifeGrid {
  import opened LifeCell

  /** Column-major: `g[x]` is column x, `g[x][y]` the cell at (x, y). */
  type Grid = seq<seq<Cell>>

  predicate IsGrid(g: Grid, xscale: nat, yscale: nat) {
    |g| == xscale && forall x :: 0 <= x < xscale ==> |g[x]| == yscale
  }

  /** (x, y) is on the table and its cell is alive in the current generation. */
  predicate LiveAt(g: Grid, xscale: nat, yscale: nat, x: int, y: int)
    requires IsGrid(g, xscale, yscale)
  {
    0 <= x < xscale && 0 <= y < yscale && g[x][y].aliveCurrGen
  }

  /** `_count_neighbors(xx, yy)`: the eight probes of the source, each guarded
      by the same bounds test, so no probe leaves the table. */
  function CountNeighbors(g: Grid, xscale: nat, yscale: nat, xx: nat, yy: nat): (n: nat)
    requires IsGrid(g, xscale, yscale) && xx < xscale && yy < yscale
    ensures n <= 8
    ensures (xx == 0 || xx == xscale - 1) && (yy == 0 || yy == yscale - 1) ==> n <= 3
    ensures xx == 0 || xx == xscale - 1 || yy == 0 || yy == yscale - 1 ==> n <= 5
  {
    var left: int, right: int, up: int, down: int := xx - 1, xx + 1, yy - 1, yy + 1;
    // left and right of (xx, yy), same row
    (if left >= 0 && g[left][yy].aliveCurrGen then 1 else 0) +
    (if right < xscale && g[right][yy].aliveCurrGen then 1 else 0) +
    // above and below (xx, yy), same column
    (if up >= 0 && g[xx][up].aliveCurrGen then 1 else 0) +
    (if down < yscale && g[xx][down].aliveCurrGen then 1 else 0) +
    // the two corners in the row above
    (if left >= 0 && up >= 0 && g[left][up].aliveCurrGen then 1 else 0) +
    (if right < xscale && up >= 0 && g[right][up].aliveCurrGen then 1 else 0) +
    // the two corners in the row below
    (if left >= 0 && down < yscale && g[left][down].aliveCurrGen then 1 else 0) +
    (if right < xscale && down < yscale && g[right][down].aliveCurrGen then 1 else 0)
  }

  /** Reference definition of the neighbourhood: the live cells of the table
      that differ from (x, y) by at most one in each coordinate. */
  ghost function LiveNeighbors(g: Grid, xscale: nat, yscale: nat, x: int, y: int): set<(int, int)>
    requires IsGrid(g, xscale, yscale)
  {
    set i: int, j: int | x - 1 <= i <= x + 1 && y - 1 <= j <= y + 1 && (i != x || j != y)
                         && LiveAt(g, xscale, yscale, i, j) :: (i, j)
  }

  /** 1 if (i, j) is live, else 0: one probe of `_count_neighbors`. */
  function ProbeCount(g: Grid, xscale: nat, yscale: nat, i: int, j: int): nat
    requires IsGrid(g, xscale, yscale)
  {
    if LiveAt(g, xscale, yscale, i, j) then 1 else 0
  }

  /** The single position (i, j) if it is live, else nothing. */
  ghost function Probe(g: Grid, xscale: nat, yscale: nat, i: int, j: int): (s: set<(int, int)>)
    requires IsGrid(g, xscale, yscale)
    ensures |s| == ProbeCount(g, xscale, yscale, i, j)
    ensures s <= {(i, j)}
  {
    if LiveAt(g, xscale, yscale, i, j) then {(i, j)} else {}
  }

  /** Adding the probe of a position not yet collected adds its count. */
  lemma AddProbe(acc: set<(int, int)>, seen: set<(int, int)>, g: Grid, xscale: nat, yscale: nat, i: int, j: int)
    requires IsGrid(g, xscale, yscale) && acc <= seen && (i, j) !in seen
    ensures |acc + Probe(g, xscale, yscale, i, j)| == |acc| + ProbeCount(g, xscale, yscale, i, j)
    ensures acc + Probe(g, xscale, yscale, i, j) <= seen + {(i, j)}
  {
  }

  /** The probes of column i at rows y - 1, y and y + 1. */
  ghost function SideProbes(g: Grid, xscale: nat, yscale: nat, i: int, y: int): set<(int, int)>
    requires IsGrid(g, xscale, yscale)
  {
    Probe(g, xscale, yscale, i, y - 1) + Probe(g, xscale, yscale, i, y) + Probe(g, xscale, yscale, i, y + 1)
  }

  /** The probes of column x above and below (x, y). */
  ghost function MidProbes(g: Grid, xscale: nat, yscale: nat, x: int, y: int): set<(int, int)>
    requires IsGrid(g, xscale, yscale)
  {
    Probe(g, xscale, yscale, x, y - 1) + Probe(g, xscale, yscale, x, y + 1)
  }

  /** The eight probes of the source, grouped by column. */
  ghost function Probes(g: Grid, xscale: nat, yscale: nat, x: int, y: int): set<(int, int)>
    requires IsGrid(g, xscale, yscale)
  {
    SideProbes(g, xscale, yscale, x - 1, y) + MidProbes(g, xscale, yscale, x, y) + SideProbes(g, xscale, yscale, x + 1, y)
  }

  /** Every live cell of the neighbourhood is found by one of the probes. */
  lemma NeighborInProbes(g: Grid, xscale: nat, yscale: nat, x: int, y: int, i: int, j: int)
    requires IsGrid(g, xscale, yscale)
    requires x - 1 <= i <= x + 1 && y - 1 <= j <= y + 1 && (i != x || j != y) && LiveAt(g, xscale, yscale, i, j)
    ensures (i, j) in Probes(g, xscale, yscale, x, y)
  {
    if i == x - 1 {
      if j == y - 1 { assert (i, j) in Probe(g, xscale, yscale, x - 1, y - 1); }
      else if j == y { assert (i, j) in Probe(g, xscale, yscale, x - 1, y); }
      else { assert (i, j) in Probe(g, xscale, yscale, x - 1, y + 1); }
    } else if i == x {
      if j == y - 1 { assert (i, j) in Probe(g, xscale, yscale, x, y - 1); }
      else { assert (i, j) in Probe(g, xscale, yscale, x, y + 1); }
    } else {
      if j == y - 1 { assert (i, j) in Probe(g, xscale, yscale, x + 1, y - 1); }
      else if j == y { assert (i, j) in Probe(g, xscale, yscale, x + 1, y); }
      else { assert (i, j) in Probe(g, xscale, yscale, x + 1, y + 1); }
    }
  }

  lemma LiveNeighborsInProbes(g: Grid, xscale: nat, yscale: nat, x: int, y: int)
    requires IsGrid(g, xscale, yscale)
    ensures LiveNeighbors(g, xscale, yscale, x, y) <= Probes(g, xscale, yscale, x, y)
  {
    var s, p := LiveNeighbors(g, xscale, yscale, x, y), Probes(g, xscale, yscale, x, y);
    forall e | e in s ensures e in p {
      var i, j :| x - 1 <= i <= x + 1 && y - 1 <= j <= y + 1 && (i != x || j != y)
                  && LiveAt(g, xscale, yscale, i, j) && e == (i, j);
      NeighborInProbes(g, xscale, yscale, x, y, i, j);
    }
  }

  lemma ProbesInLiveNeighbors(g: Grid, xscale: nat, yscale: nat, x: int, y: int)
    requires IsGrid(g, xscale, yscale)
    ensures Probes(g, xscale, yscale, x, y) <= LiveNeighbors(g, xscale, yscale, x, y)
  {
    var s, p := LiveNeighbors(g, xscale, yscale, x, y), Probes(g, xscale, yscale, x, y);
    forall e | e in p ensures e in s {
      if e in Probe(g, xscale, yscale, x - 1, y) {
      } else if e in Probe(g, xscale, yscale, x + 1, y) {
      } else if e in Probe(g, xscale, yscale, x, y - 1) {
      } else if e in Probe(g, xscale, yscale, x, y + 1) {
      } else if e in Probe(g, xscale, yscale, x - 1, y - 1) {
      } else if e in Probe(g, xscale, yscale, x + 1, y - 1) {
      } else if e in Probe(g, xscale, yscale, x - 1, y + 1) {
      } else {
        assert e in Probe(g, xscale, yscale, x + 1, y + 1);
      }
    }
  }


  lemma ProbesAreLiveNeighbors(g: Grid, xscale: nat, yscale: nat, x: int, y: int)
    requires IsGrid(g, xscale, yscale)
    ensures Probes(g, xscale, yscale, x, y) == LiveNeighbors(g, xscale, yscale, x, y)
  {
    LiveNeighborsInProbes(g, xscale, yscale, x, y);
    ProbesInLiveNeighbors(g, xscale, yscale, x, y);
  }

  lemma CountNeighborsIsProbeCounts(g: Grid, xscale: nat, yscale: nat, x: nat, y: nat)
    requires IsGrid(g, xscale, yscale) && x < xscale && y < yscale
    ensures CountNeighbors(g, xscale, yscale, x, y) ==
      ProbeCount(g, xscale, yscale, x - 1, y) + ProbeCount(g, xscale, yscale, x + 1, y) +
      ProbeCount(g, xscale, yscale, x, y - 1) + ProbeCount(g, xscale, yscale, x, y + 1) +
      ProbeCount(g, xscale, yscale, x - 1, y - 1) + ProbeCount(g, xscale, yscale, x + 1, y - 1) +
      ProbeCount(g, xscale, yscale, x - 1, y + 1) + ProbeCount(g, xscale, yscale, x + 1, y + 1)
  {
  }

  lemma DisjointUnionSize(a: set<(int, int)>, b: set<(int, int)>)
    requires a !! b
    ensures |a + b| == |a| + |b|
  {
    assert a * b == {};
  }

  /** The probes of one side column count their live cells and stay in that column. */
  lemma SideProbesSize(g: Grid, xscale: nat, yscale: nat, i: int, y: int)
    requires IsGrid(g, xscale, yscale)
    ensures |SideProbes(g, xscale, yscale, i, y)| ==
      ProbeCount(g, xscale, yscale, i, y - 1) + ProbeCount(g, xscale, yscale, i, y) + ProbeCount(g, xscale, yscale, i, y + 1)
    ensures forall e :: e in SideProbes(g, xscale, yscale, i, y) ==> e.0 == i
  {
    AddProbe(Probe(g, xscale, yscale, i, y - 1), {(i, y - 1)}, g, xscale, yscale, i, y);
    AddProbe(Probe(g, xscale, yscale, i, y - 1) + Probe(g, xscale, yscale, i, y), {(i, y - 1), (i, y)},
             g, xscale, yscale, i, y + 1);
  }

  /** The two probes of the middle column count their live cells and stay in that column. */
  lemma MidProbesSize(g: Grid, xscale: nat, yscale: nat, x: int, y: int)
    requires IsGrid(g, xscale, yscale)
    ensures |MidProbes(g, xscale, yscale, x, y)| == ProbeCount(g, xscale, yscale, x, y - 1) + ProbeCount(g, xscale, yscale, x, y + 1)
    ensures forall e :: e in MidProbes(g, xscale, yscale, x, y) ==> e.0 == x
  {
    AddProbe(Probe(g, xscale, yscale, x, y - 1), {(x, y - 1)}, g, xscale, yscale, x, y + 1);
  }

  lemma ProbesSize(g: Grid, xscale: nat, yscale: nat, x: int, y: int)
    requires IsGrid(g, xscale, yscale)
    ensures |Probes(g, xscale, yscale, x, y)| ==
      ProbeCount(g, xscale, yscale, x - 1, y) + ProbeCount(g, xscale, yscale, x + 1, y) +
      ProbeCount(g, xscale, yscale, x, y - 1) + ProbeCount(g, xscale, yscale, x, y + 1) +
      ProbeCount(g, xscale, yscale, x - 1, y - 1) + ProbeCount(g, xscale, yscale, x + 1, y - 1) +
      ProbeCount(g, xscale, yscale, x - 1, y + 1) + ProbeCount(g, xscale, yscale, x + 1, y + 1)
  {
    var l, m, r := SideProbes(g, xscale, yscale, x - 1, y), MidProbes(g, xscale, yscale, x, y),
                   SideProbes(g, xscale, yscale, x + 1, y);
    SideProbesSize(g, xscale, yscale, x - 1, y);
    MidProbesSize(g, xscale, yscale, x, y);
    SideProbesSize(g, xscale, yscale, x + 1, y);
    DisjointUnionSize(l, m);
    DisjointUnionSize(l + m, r);
  }

  /** `_count_neighbors` counts exactly the live cells of the neighbourhood. */
  lemma CountNeighborsIsLiveNeighbors(g: Grid, xscale: nat, yscale: nat, x: nat, y: nat)
    requires IsGrid(g, xscale, yscale) && x < xscale && y < yscale
    ensures CountNeighbors(g, xscale, yscale, x, y) == |LiveNeighbors(g, xscale, yscale, x, y)|
  {
    ProbesAreLiveNeighbors(g, xscale, yscale, x, y);
    CountNeighborsIsProbeCounts(g, xscale, yscale, x, y);
    ProbesSize(g, xscale, yscale, x, y);
  }

  /** Two grids that agree on every current-generation flag. */
  predicate SameCurrent(g: Grid, h: Grid, xscale: nat, yscale: nat)
    requires IsGrid(g, xscale, yscale) && IsGrid(h, xscale, yscale)
  {
    forall x, y :: 0 <= x < xscale && 0 <= y < yscale ==> g[x][y].aliveCurrGen == h[x][y].aliveCurrGen
  }

  /** `_count_neighbors` reads only `alive_curr_gen`. */
  lemma CountNeighborsReadsCurrent(g: Grid, h: Grid, xscale: nat, yscale: nat, x: nat, y: nat)
    requires IsGrid(g, xscale, yscale) && IsGrid(h, xscale, yscale) && x < xscale && y < yscale
    requires SameCurrent(g, h, xscale, yscale)
    ensures CountNeighbors(g, xscale, yscale, x, y) == CountNeighbors(h, xscale, yscale, x, y)
  {
  }

  /** The cell at (x, y) after `_prepare_generation`, from the grid before it. */
  function PreparedAt(g: Grid, xscale: nat, yscale: nat, x: nat, y: nat): Cell
    requires IsGrid(g, xscale, yscale) && x < xscale && y < yscale
  {
    PrepareCell(g[x][y], CountNeighbors(g, xscale, yscale, x, y))
  }

  /** The whole grid after `_prepare_generation`: every cell prepared against
      the counts of the grid as it was before the pass. */
  function Prepared(g: Grid, xscale: nat, yscale: nat): (p: Grid)
    requires IsGrid(g, xscale, yscale)
    ensures IsGrid(p, xscale, yscale)
  {
    seq(xscale, x requires 0 <= x < xscale =>
      seq(yscale, y requires 0 <= y < yscale => PreparedAt(g, xscale, yscale, x, y)))
  }

  /** The whole grid after the commit pass of `advance_generation`. */
  function Committed(g: Grid, xscale: nat, yscale: nat): (c: Grid)
    requires IsGrid(g, xscale, yscale)
    ensures IsGrid(c, xscale, yscale)
  {
    seq(xscale, x requires 0 <= x < xscale =>
      seq(yscale, y requires 0 <= y < yscale => CommitCell(g[x][y])))
  }

  /** One call of `advance_generation` on the cells: prepare, then commit. */
  function Tick(g: Grid, xscale: nat, yscale: nat): (t: Grid)
    requires IsGrid(g, xscale, yscale)
    ensures IsGrid(t, xscale, yscale)
  {
    Committed(Prepared(g, xscale, yscale), xscale, yscale)
  }

  /** One more column of `g` agrees with `PreparedAt`. */
  lemma PreparedColumnsStep(g: Grid, g0: Grid, xscale: nat, yscale: nat, xx: nat)
    requires IsGrid(g, xscale, yscale) && IsGrid(g0, xscale, yscale) && xx < xscale
    requires forall x, y :: 0 <= x < xx && 0 <= y < yscale ==> g[x][y] == PreparedAt(g0, xscale, yscale, x, y)
    requires forall y :: 0 <= y < yscale ==> g[xx][y] == PreparedAt(g0, xscale, yscale, xx, y)
    ensures forall x, y :: 0 <= x < xx + 1 && 0 <= y < yscale ==> g[x][y] == PreparedAt(g0, xscale, yscale, x, y)
  {
  }

  /** One more column of `g` agrees with `CommitCell` of `p`. */
  lemma CommittedColumnsStep(g: Grid, p: Grid, xscale: nat, yscale: nat, xx: nat)
    requires IsGrid(g, xscale, yscale) && IsGrid(p, xscale, yscale) && xx < xscale
    requires forall x, y :: 0 <= x < xx && 0 <= y < yscale ==> g[x][y] == CommitCell(p[x][y])
    requires forall y :: 0 <= y < yscale ==> g[xx][y] == CommitCell(p[xx][y])
    ensures forall x, y :: 0 <= x < xx + 1 && 0 <= y < yscale ==> g[x][y] == CommitCell(p[x][y])
  {
  }

  /** A grid that agrees with `PreparedAt` at every cell is the prepared grid. */
  lemma PreparedByCells(g: Grid, g0: Grid, xscale: nat, yscale: nat)
    requires IsGrid(g, xscale, yscale) && IsGrid(g0, xscale, yscale)
    requires forall x, y :: 0 <= x < xscale && 0 <= y < yscale ==> g[x][y] == PreparedAt(g0, xscale, yscale, x, y)
    ensures g == Prepared(g0, xscale, yscale)
  {
    var p := Prepared(g0, xscale, yscale);
    forall x | 0 <= x < xscale
      ensures g[x] == p[x]
    {
      assert forall y :: 0 <= y < yscale ==> g[x][y] == p[x][y];
    }
  }

  /** A grid that agrees with `CommitCell` of `p` at every cell is `p`
      committed. */
  lemma CommittedByCells(g: Grid, p: Grid, xscale: nat, yscale: nat)
    requires IsGrid(g, xscale, yscale) && IsGrid(p, xscale, yscale)
    requires forall x, y :: 0 <= x < xscale && 0 <= y < yscale ==> g[x][y] == CommitCell(p[x][y])
    ensures g == Committed(p, xscale, yscale)
  {
    var c := Committed(p, xscale, yscale);
    forall x | 0 <= x < xscale
      ensures g[x] == c[x]
    {
      assert forall y :: 0 <= y < yscale ==> g[x][y] == c[x][y];
    }
  }

  /** No dead cell carries a stale "alive next generation" flag. Holds for a
      freshly built or seeded table and after every commit. */
  predicate NoStaleNext(g: Grid, xscale: nat, yscale: nat)
    requires IsGrid(g, xscale, yscale)
  {
    forall x, y :: 0 <= x < xscale && 0 <= y < yscale ==> g[x][y].aliveCurrGen || !g[x][y].aliveNextGen
  }

  /** Every cell has a fresh double buffer and no streak: the state of a table
      after construction and seeding. */
  predicate Unprepared(g: Grid, xscale: nat, yscale: nat)
    requires IsGrid(g, xscale, yscale)
  {
    forall x, y :: 0 <= x < xscale && 0 <= y < yscale ==> !g[x][y].aliveNextGen && g[x][y].generationCnt == 0
  }

  /** Conway's next state of (x, y), from the reference neighbourhood. */
  ghost predicate LifeNext(g: Grid, xscale: nat, yscale: nat, x: nat, y: nat)
    requires IsGrid(g, xscale, yscale) && x < xscale && y < yscale
  {
    Life(g[x][y].aliveCurrGen, |LiveNeighbors(g, xscale, yscale, x, y)|)
  }

  /** `_prepare_generation` changes no current-generation flag, and a cell's
      streak is zero exactly when it is not alive next generation. */
  lemma PreparedKeepsCurrent(g: Grid, xscale: nat, yscale: nat)
    requires IsGrid(g, xscale, yscale)
    ensures SameCurrent(Prepared(g, xscale, yscale), g, xscale, yscale)
    ensures forall x, y :: 0 <= x < xscale && 0 <= y < yscale ==>
      (Prepared(g, xscale, yscale)[x][y].generationCnt == 0 <==> !Prepared(g, xscale, yscale)[x][y].aliveNextGen)
  {
  }

  /** On a grid with no stale flags `_prepare_generation` computes exactly
      Conway's next generation into `aliveNextGen`. */
  lemma PreparedIsLife(g: Grid, xscale: nat, yscale: nat)
    requires IsGrid(g, xscale, yscale) && NoStaleNext(g, xscale, yscale)
    ensures forall x, y :: 0 <= x < xscale && 0 <= y < yscale ==>
      Prepared(g, xscale, yscale)[x][y].aliveNextGen == LifeNext(g, xscale, yscale, x, y)
  {
    forall x, y | 0 <= x < xscale && 0 <= y < yscale
      ensures Prepared(g, xscale, yscale)[x][y].aliveNextGen == LifeNext(g, xscale, yscale, x, y)
    {
      CountNeighborsIsLiveNeighbors(g, xscale, yscale, x, y);
      PrepareCellIsLife(g[x][y], CountNeighbors(g, xscale, yscale, x, y));
    }
  }

  /** Running `_prepare_generation` a second time before any commit (as the
      constructor does, life_game.py:66 then :237) recomputes the same
      `aliveNextGen` and counts each next-alive cell's streak twice. */
  lemma PreparedTwice(g: Grid, xscale: nat, yscale: nat)
    requires IsGrid(g, xscale, yscale)
    ensures forall x, y :: 0 <= x < xscale && 0 <= y < yscale ==>
      var p, pp := Prepared(g, xscale, yscale), Prepared(Prepared(g, xscale, yscale), xscale, yscale);
      pp[x][y].aliveCurrGen == g[x][y].aliveCurrGen &&
      pp[x][y].aliveNextGen == p[x][y].aliveNextGen &&
      pp[x][y].generationCnt == (if p[x][y].aliveNextGen then g[x][y].generationCnt + 2 else 0)
  {
    var p := Prepared(g, xscale, yscale);
    forall x, y | 0 <= x < xscale && 0 <= y < yscale
      ensures Prepared(p, xscale, yscale)[x][y] == PrepareCell(PrepareCell(g[x][y], CountNeighbors(g, xscale, yscale, x, y)),
                                                              CountNeighbors(g, xscale, yscale, x, y))
    {
      CountNeighborsReadsCurrent(p, g, xscale, yscale, x, y);
    }
    forall x, y | 0 <= x < xscale && 0 <= y < yscale {
      PrepareCellTwice(g[x][y], CountNeighbors(g, xscale, yscale, x, y));
    }
  }

  /** After `advance_generation` every cell's two buffers agree, its streak is
      zero exactly when it is dead, and a live cell's streak grew by one. */
  lemma TickCommits(g: Grid, xscale: nat, yscale: nat)
    requires IsGrid(g, xscale, yscale)
    ensures forall x, y :: 0 <= x < xscale && 0 <= y < yscale ==>
      var t := Tick(g, xscale, yscale);
      t[x][y].aliveCurrGen == t[x][y].aliveNextGen &&
      (t[x][y].generationCnt == 0 <==> !t[x][y].aliveCurrGen) &&
      (t[x][y].aliveCurrGen ==> t[x][y].generationCnt == g[x][y].generationCnt + 1)
    ensures NoStaleNext(Tick(g, xscale, yscale), xscale, yscale)
  {
  }

  /** Each call of `advance_generation` on a grid without stale flags moves
      the current generation one step of Conway's Game of Life, and leaves a
      grid without stale flags for the next call. */
  lemma TickIsLife(g: Grid, xscale: nat, yscale: nat)
    requires IsGrid(g, xscale, yscale) && NoStaleNext(g, xscale, yscale)
    ensures forall x, y :: 0 <= x < xscale && 0 <= y < yscale ==>
      Tick(g, xscale, yscale)[x][y].aliveCurrGen == LifeNext(g, xscale, yscale, x, y)
    ensures NoStaleNext(Tick(g, xscale, yscale), xscale, yscale)
  {
    PreparedIsLife(g, xscale, yscale);
    TickCommits(g, xscale, yscale);
  }

  /** The first tick of a freshly seeded table, as the constructor runs it
      (prepare, then `advance_generation`, which prepares again and commits):
      Conway's next generation, with every live cell at streak 2. */
  lemma FirstTick(g: Grid, xscale: nat, yscale: nat)
    requires IsGrid(g, xscale, yscale) && Unprepared(g, xscale, yscale)
    ensures forall x, y :: 0 <= x < xscale && 0 <= y < yscale ==>
      var t := Tick(Prepared(g, xscale, yscale), xscale, yscale);
      t[x][y].aliveCurrGen == LifeNext(g, xscale, yscale, x, y) &&
      t[x][y].generationCnt == (if t[x][y].aliveCurrGen then 2 else 0)
  {
    PreparedIsLife(g, xscale, yscale);
    PreparedTwice(g, xscale, yscale);
  }
}
