/** The simulation core of `GameTable` (life_game.py): a column-major table of
    cells together with the intensity array the renderers read, seeded from a
    pattern, recentred on its live cells, and advanced one generation at a
    time. The table size, which the source takes from the graphics back end,
    is a constructor parameter. */
module LifeGame {
  import opened LifeCell
  import opened LifeGrid
  import opened Recenter
  import opened SeedScan

  /** A freshly built table of `xscale` columns of `yscale` new cells. */
  function Blank(xscale: nat, yscale: nat): (g: Grid)
    ensures IsGrid(g, xscale, yscale) && Unprepared(g, xscale, yscale) && AllDead(g, xscale, yscale)
  {
    seq(xscale, x => seq(yscale, y => NewCell))
  }

  /** A bounding box [xMin, xMax] x [yMin, yMax]. */
  datatype Box = Box(xMin: int, xMax: int, yMin: int, yMax: int)

  /** One pass of the "shift up" loop body: `insert(0, pop())` on every
      column, so every column's last cell moves to its front. */
  method ShiftUp(g0: Grid, xscale: nat, yscale: nat) returns (g: Grid)
    requires IsGrid(g0, xscale, yscale) && yscale > 0
    ensures g == RowsLastToFront(g0, xscale, yscale)
    ensures LiveCount(g) == LiveCount(g0)
  {
    g := g0;
    for xx := 0 to xscale
      invariant IsGrid(g, xscale, yscale)
      invariant forall x :: 0 <= x < xx ==> g[x] == LastToFront(g0[x])
      invariant forall x :: xx <= x < xscale ==> g[x] == g0[x]
      invariant LiveCount(g) == LiveCount(g0)
    {
      ColumnLastToFrontKeepsCount(g[xx]);
      ReplaceColumnKeepsCount(g, xx, LastToFront(g[xx]));
      g := g[xx := LastToFront(g[xx])];
    }
  }

  /** One pass of the "shift down" loop body: `append(pop(0))` on every
      column, so every column's first cell moves to its back. */
  method ShiftDown(g0: Grid, xscale: nat, yscale: nat) returns (g: Grid)
    requires IsGrid(g0, xscale, yscale) && yscale > 0
    ensures g == RowsFirstToBack(g0, xscale, yscale)
    ensures LiveCount(g) == LiveCount(g0)
  {
    g := g0;
    for xx := 0 to xscale
      invariant IsGrid(g, xscale, yscale)
      invariant forall x :: 0 <= x < xx ==> g[x] == FirstToBack(g0[x])
      invariant forall x :: xx <= x < xscale ==> g[x] == g0[x]
      invariant LiveCount(g) == LiveCount(g0)
    {
      ColumnFirstToBackKeepsCount(g[xx]);
      ReplaceColumnKeepsCount(g, xx, FirstToBack(g[xx]));
      g := g[xx := FirstToBack(g[xx])];
    }
  }

  /** The "shift right" loop: while the right margin `xscale - x_max`
      exceeds the left margin `x_min` by more than one, rotate the columns
      one step right and move both bounds with them. */
  method ShiftRightLoop(g0: Grid, xscale: nat, yscale: nat, xMin0: int, xMax0: int)
    returns (g: Grid, xMin: int, xMax: int, ghost right: nat)
    requires IsGrid(g0, xscale, yscale) && 0 <= xMin0 && 0 <= xMax0
    ensures IsGrid(g, xscale, yscale) && g == ColumnsLastToFrontTimes(g0, xscale, yscale, right)
    ensures right == Passes(xscale - xMax0 - xMin0)
    ensures xMin == xMin0 + right && xMax == xMax0 + right
    ensures LiveCount(g) == LiveCount(g0)
  {
    xMin, xMax := xMin0, xMax0;
    g := g0;
    right := 0;
    while xscale - xMax > xMin + 1
      invariant IsGrid(g, xscale, yscale) && g == ColumnsLastToFrontTimes(g0, xscale, yscale, right)
      invariant xMin == xMin0 + right && xMax == xMax0 + right
      invariant right > 0 ==> xscale - xMax >= xMin && xscale - xMax0 - xMin0 > 1
      invariant LiveCount(g) == LiveCount(g0)
      decreases xscale - xMax - xMin
    {
      xMax := xMax + 1;
      xMin := xMin + 1;
      LastToFrontKeepsCount(g);
      g := ColumnsLastToFront(g, xscale, yscale);
      right := right + 1;
    }
    PassesOf(xscale - xMax0 - xMin0, right);
  }

  /** The "shift left" loop: while the left margin exceeds the right one by
      more than one, rotate the columns one step left. */
  method ShiftLeftLoop(g0: Grid, xscale: nat, yscale: nat, xMin0: int, xMax0: int)
    returns (g: Grid, xMin: int, xMax: int, ghost left: nat)
    requires IsGrid(g0, xscale, yscale) && (xscale == 0 ==> xMin0 + xMax0 <= 1)
    ensures IsGrid(g, xscale, yscale) && g == ColumnsFirstToBackTimes(g0, xscale, yscale, left)
    ensures left == Passes(xMin0 + xMax0 - xscale)
    ensures xMin == xMin0 - left && xMax == xMax0 - left
    ensures LiveCount(g) == LiveCount(g0)
  {
    xMin, xMax := xMin0, xMax0;
    g := g0;
    left := 0;
    while xMin > xscale - xMax + 1
      invariant IsGrid(g, xscale, yscale) && g == ColumnsFirstToBackTimes(g0, xscale, yscale, left)
      invariant xMin == xMin0 - left && xMax == xMax0 - left
      invariant xscale == 0 ==> xMin + xMax <= 1
      invariant left > 0 ==> xMin >= xscale - xMax && xMin0 + xMax0 - xscale > 1
      invariant LiveCount(g) == LiveCount(g0)
      decreases xMin + xMax - xscale
    {
      xMin := xMin - 1;
      xMax := xMax - 1;
      FirstToBackKeepsCount(g);
      g := ColumnsFirstToBack(g, xscale, yscale);
      left := left + 1;
    }
    PassesOf(xMin0 + xMax0 - xscale, left);
  }

  /** The "shift up" loop: while the bottom margin `yscale - y_max` exceeds
      the top margin `y_min` by more than one, move every column's last cell
      to its front and move both bounds with the rows. */
  method ShiftUpLoop(g0: Grid, xscale: nat, yscale: nat, yMin0: int, yMax0: int)
    returns (g: Grid, yMin: int, yMax: int, ghost up: nat)
    requires IsGrid(g0, xscale, yscale) && 0 <= yMin0 && 0 <= yMax0
    ensures IsGrid(g, xscale, yscale) && g == RowsLastToFrontTimes(g0, xscale, yscale, up)
    ensures up == Passes(yscale - yMax0 - yMin0)
    ensures yMin == yMin0 + up && yMax == yMax0 + up
    ensures LiveCount(g) == LiveCount(g0)
  {
    yMin, yMax := yMin0, yMax0;
    g := g0;
    up := 0;
    while yscale - yMax > yMin + 1
      invariant IsGrid(g, xscale, yscale) && g == RowsLastToFrontTimes(g0, xscale, yscale, up)
      invariant yMin == yMin0 + up && yMax == yMax0 + up
      invariant up > 0 ==> yscale - yMax >= yMin && yscale - yMax0 - yMin0 > 1
      invariant LiveCount(g) == LiveCount(g0)
      decreases yscale - yMax - yMin
    {
      yMax := yMax + 1;
      yMin := yMin + 1;
      g := ShiftUp(g, xscale, yscale);
      up := up + 1;
    }
    PassesOf(yscale - yMax0 - yMin0, up);
  }

  /** The "shift down" loop: while the top margin exceeds the bottom one by
      more than one, move every column's first cell to its back. */
  method ShiftDownLoop(g0: Grid, xscale: nat, yscale: nat, yMin0: int, yMax0: int)
    returns (g: Grid, yMin: int, yMax: int, ghost down: nat)
    requires IsGrid(g0, xscale, yscale) && (yscale == 0 ==> yMin0 + yMax0 <= 1)
    ensures IsGrid(g, xscale, yscale) && g == RowsFirstToBackTimes(g0, xscale, yscale, down)
    ensures down == Passes(yMin0 + yMax0 - yscale)
    ensures yMin == yMin0 - down && yMax == yMax0 - down
    ensures LiveCount(g) == LiveCount(g0)
  {
    yMin, yMax := yMin0, yMax0;
    g := g0;
    down := 0;
    while yMin > yscale - yMax + 1
      invariant IsGrid(g, xscale, yscale) && g == RowsFirstToBackTimes(g0, xscale, yscale, down)
      invariant yMin == yMin0 - down && yMax == yMax0 - down
      invariant yscale == 0 ==> yMin + yMax <= 1
      invariant down > 0 ==> yMin >= yscale - yMax && yMin0 + yMax0 - yscale > 1
      invariant LiveCount(g) == LiveCount(g0)
      decreases yMin + yMax - yscale
    {
      yMax := yMax - 1;
      yMin := yMin - 1;
      g := ShiftDown(g, xscale, yscale);
      down := down + 1;
    }
    PassesOf(yMin0 + yMax0 - yscale, down);
  }

  /** The "shift right" and "shift left" loops of `_center_on_alive_cells`,
      from the column bounds found by the bounds search. The table comes out
      as `right` passes of "shift right" then `left` passes of "shift left"
      leave it. Each count is the number of passes the margin difference
      calls for, so at most one of them is non-zero. An all-dead table is
      not rotated. Otherwise the bounds move with the table without leaving
      it, and the left and right margins end up differing by at most one. */
  method CenterColumns(g0: Grid, xscale: nat, yscale: nat, xMin0: int, xMax0: int)
    returns (g: Grid, ghost right: nat, ghost left: nat)
    requires IsGrid(g0, xscale, yscale)
    requires AllDead(g0, xscale, yscale) ==> xMin0 == xscale && xMax0 == 0
    requires !AllDead(g0, xscale, yscale) ==> 0 <= xMin0 <= xMax0 < xscale
    ensures IsGrid(g, xscale, yscale)
    ensures g == ColumnsShifted(g0, xscale, yscale, right, left)
    ensures right == Passes(xscale - xMax0 - xMin0) && left == Passes(xMin0 + xMax0 - xscale)
    ensures right == 0 || left == 0
    ensures LiveCount(g) == LiveCount(g0)
    ensures AllDead(g0, xscale, yscale) ==> right == 0 && left == 0
    ensures !AllDead(g0, xscale, yscale) ==>
      0 <= xMin0 + right - left <= xMax0 + right - left < xscale &&
      Balanced(xMin0 + right - left, xMax0 + right - left, xscale)
  {
    assert xscale == 0 ==> AllDead(g0, xscale, yscale);
    var g1: Grid, xMin: int, xMax: int;
    g1, xMin, xMax, right := ShiftRightLoop(g0, xscale, yscale, xMin0, xMax0);
    // Shift left: reached after the loop above whether or not it ran
    g, xMin, xMax, left := ShiftLeftLoop(g1, xscale, yscale, xMin, xMax);
  }

  /** The "shift up" and "shift down" loops of `_center_on_alive_cells`, the
      same as `CenterColumns` for the rows of every column. */
  method CenterRows(g0: Grid, xscale: nat, yscale: nat, yMin0: int, yMax0: int)
    returns (g: Grid, ghost up: nat, ghost down: nat)
    requires IsGrid(g0, xscale, yscale)
    requires AllDead(g0, xscale, yscale) ==> yMin0 == yscale && yMax0 == 0
    requires !AllDead(g0, xscale, yscale) ==> 0 <= yMin0 <= yMax0 < yscale
    ensures IsGrid(g, xscale, yscale)
    ensures g == RowsShifted(g0, xscale, yscale, up, down)
    ensures up == Passes(yscale - yMax0 - yMin0) && down == Passes(yMin0 + yMax0 - yscale)
    ensures up == 0 || down == 0
    ensures LiveCount(g) == LiveCount(g0)
    ensures AllDead(g0, xscale, yscale) ==> up == 0 && down == 0
    ensures !AllDead(g0, xscale, yscale) ==>
      0 <= yMin0 + up - down <= yMax0 + up - down < yscale &&
      Balanced(yMin0 + up - down, yMax0 + up - down, yscale)
  {
    assert yscale == 0 ==> AllDead(g0, xscale, yscale);
    var g1: Grid, yMin: int, yMax: int;
    g1, yMin, yMax, up := ShiftUpLoop(g0, xscale, yscale, yMin0, yMax0);
    // Shift down: reached after the loop above whether or not it ran
    g, yMin, yMax, down := ShiftDownLoop(g1, xscale, yscale, yMin, yMax);
  }

  /** The bounds search visits column by column: (x, y) comes before the
      cell (n, m) it is at. */
  predicate Before(x: int, y: int, n: int, m: int) {
    x < n || (x == n && y < m)
  }

  /** What the bounds search knows once it is at cell (n, m): with no live
      cell seen the bounds are still the sentinels; otherwise they enclose
      every live cell seen, and `atMin`, `atMax`, `atTop`, `atBottom` locate
      a live cell on each side. */
  ghost predicate Scanned(cells: Grid, xscale: nat, yscale: nat, n: nat, m: nat, found: bool,
                          xMin: int, xMax: int, yMin: int, yMax: int,
                          atMin: int, atMax: int, atTop: int, atBottom: int)
    requires IsGrid(cells, xscale, yscale)
  {
    && (!found ==>
          && xMin == xscale && xMax == 0 && yMin == yscale && yMax == 0
          && forall x, y :: 0 <= x < xscale && 0 <= y < yscale && Before(x, y, n, m) ==> !cells[x][y].aliveCurrGen)
    && (found ==>
          && 0 <= xMin <= xMax < xscale && 0 <= yMin <= yMax < yscale
          && (forall x, y :: 0 <= x < xscale && 0 <= y < yscale && Before(x, y, n, m) && cells[x][y].aliveCurrGen ==>
                xMin <= x <= xMax && yMin <= y <= yMax)
          && 0 <= atMin < yscale && cells[xMin][atMin].aliveCurrGen
          && 0 <= atMax < yscale && cells[xMax][atMax].aliveCurrGen
          && 0 <= atTop < xscale && cells[atTop][yMin].aliveCurrGen
          && 0 <= atBottom < xscale && cells[atBottom][yMax].aliveCurrGen)
  }

  /** Passing a dead cell changes nothing the bounds search knows. */
  lemma ScannedDead(cells: Grid, xscale: nat, yscale: nat, n: nat, m: nat, found: bool,
                    xMin: int, xMax: int, yMin: int, yMax: int,
                    atMin: int, atMax: int, atTop: int, atBottom: int)
    requires IsGrid(cells, xscale, yscale) && n < xscale && m < yscale && !cells[n][m].aliveCurrGen
    requires Scanned(cells, xscale, yscale, n, m, found, xMin, xMax, yMin, yMax, atMin, atMax, atTop, atBottom)
    ensures Scanned(cells, xscale, yscale, n, m + 1, found, xMin, xMax, yMin, yMax, atMin, atMax, atTop, atBottom)
  {
    forall x, y | Before(x, y, n, m + 1)
      ensures Before(x, y, n, m) || (x == n && y == m)
    {
    }
  }

  /** Having visited all of column `n` is being at the foot of column `n + 1`. */
  lemma ScannedColumn(cells: Grid, xscale: nat, yscale: nat, n: nat, found: bool,
                      xMin: int, xMax: int, yMin: int, yMax: int,
                      atMin: int, atMax: int, atTop: int, atBottom: int)
    requires IsGrid(cells, xscale, yscale)
    requires Scanned(cells, xscale, yscale, n, yscale, found, xMin, xMax, yMin, yMax, atMin, atMax, atTop, atBottom)
    ensures Scanned(cells, xscale, yscale, n + 1, 0, found, xMin, xMax, yMin, yMax, atMin, atMax, atTop, atBottom)
  {
    assert forall x, y :: 0 <= x < xscale && 0 <= y < yscale ==> (Before(x, y, n + 1, 0) <==> Before(x, y, n, yscale));
  }

  /** Having visited every column, the sentinels are left exactly when no
      cell is alive, and otherwise the bounds are the tight bounding box. */
  lemma ScannedAll(cells: Grid, xscale: nat, yscale: nat, found: bool,
                   xMin: int, xMax: int, yMin: int, yMax: int,
                   atMin: int, atMax: int, atTop: int, atBottom: int)
    requires IsGrid(cells, xscale, yscale)
    requires Scanned(cells, xscale, yscale, xscale, 0, found, xMin, xMax, yMin, yMax, atMin, atMax, atTop, atBottom)
    ensures AllDead(cells, xscale, yscale) ==> xMin == xscale && xMax == 0 && yMin == yscale && yMax == 0
    ensures !AllDead(cells, xscale, yscale) ==> BoundingBox(cells, xscale, yscale, xMin, xMax, yMin, yMax)
  {
    assert forall x, y :: 0 <= x < xscale && 0 <= y < yscale ==> Before(x, y, xscale, 0);
  }

  /** The bounds search of `_center_on_alive_cells`: starting from the
      sentinels x_min = xscale, x_max = 0, y_min = yscale, y_max = 0, it
      returns the sentinels when no cell is alive and the tight bounding box
      of the live cells otherwise. */
  method LiveBounds(cells: Grid, xscale: nat, yscale: nat) returns (xMin: int, xMax: int, yMin: int, yMax: int)
    requires IsGrid(cells, xscale, yscale)
    ensures AllDead(cells, xscale, yscale) ==> xMin == xscale && xMax == 0 && yMin == yscale && yMax == 0
    ensures !AllDead(cells, xscale, yscale) ==> BoundingBox(cells, xscale, yscale, xMin, xMax, yMin, yMax)
  {
    xMin, xMax, yMin, yMax := xscale, 0, yscale, 0;
    // whether a live cell has been seen, and where each side of the box touches one
    ghost var found := false;
    ghost var atMin, atMax, atTop, atBottom := 0, 0, 0, 0;
    for xx := 0 to xscale
      invariant Scanned(cells, xscale, yscale, xx, 0, found, xMin, xMax, yMin, yMax, atMin, atMax, atTop, atBottom)
    {
      for yy := 0 to yscale
        invariant Scanned(cells, xscale, yscale, xx, yy, found, xMin, xMax, yMin, yMax, atMin, atMax, atTop, atBottom)
      {
        if cells[xx][yy].aliveCurrGen {
          xMin, xMax, yMin, yMax, found, atMin, atMax, atTop, atBottom :=
            TakeIn(cells, xscale, yscale, xx, yy, xMin, xMax, yMin, yMax, found, atMin, atMax, atTop, atBottom);
        } else {
          ScannedDead(cells, xscale, yscale, xx, yy, found, xMin, xMax, yMin, yMax, atMin, atMax, atTop, atBottom);
        }
      }
      ScannedColumn(cells, xscale, yscale, xx, found, xMin, xMax, yMin, yMax, atMin, atMax, atTop, atBottom);
    }
    ScannedAll(cells, xscale, yscale, found, xMin, xMax, yMin, yMax, atMin, atMax, atTop, atBottom);
  }

  /** The body of the bounds search at a live cell (xx, yy): each bound the
      cell lies beyond moves out to it. */
  method TakeIn(cells: Grid, xscale: nat, yscale: nat, xx: nat, yy: nat,
                xMin0: int, xMax0: int, yMin0: int, yMax0: int, ghost found0: bool,
                ghost atMin0: int, ghost atMax0: int, ghost atTop0: int, ghost atBottom0: int)
    returns (xMin: int, xMax: int, yMin: int, yMax: int, ghost found: bool,
             ghost atMin: int, ghost atMax: int, ghost atTop: int, ghost atBottom: int)
    requires IsGrid(cells, xscale, yscale) && xx < xscale && yy < yscale && cells[xx][yy].aliveCurrGen
    requires Scanned(cells, xscale, yscale, xx, yy, found0, xMin0, xMax0, yMin0, yMax0, atMin0, atMax0, atTop0, atBottom0)
    ensures Scanned(cells, xscale, yscale, xx, yy + 1, found, xMin, xMax, yMin, yMax, atMin, atMax, atTop, atBottom)
  {
    xMin, xMax, yMin, yMax, found := xMin0, xMax0, yMin0, yMax0, found0;
    atMin, atMax, atTop, atBottom := atMin0, atMax0, atTop0, atBottom0;
    if !found {
      atMin, atMax, atTop, atBottom := yy, yy, xx, xx;
    }
    if yy > yMax {
      yMax, atBottom := yy, xx;
    }
    if yy < yMin {
      yMin, atTop := yy, xx;
    }
    if xx > xMax {
      xMax, atMax := xx, yy;
    }
    if xx < xMin {
      xMin, atMin := xx, yy;
    }
    found := true;
  }

  /** The recentred table carries the live pattern without wrap-around. */
  lemma CenteredLive(g0: Grid, xscale: nat, yscale: nat, box: Box, shifts: Shifts, g: Grid)
    requires IsGrid(g0, xscale, yscale) && BoundingBox(g0, xscale, yscale, box.xMin, box.xMax, box.yMin, box.yMax)
    requires 0 <= box.xMin + shifts.Dx() && box.xMax + shifts.Dx() < xscale
    requires 0 <= box.yMin + shifts.Dy() && box.yMax + shifts.Dy() < yscale
    requires Translated(g, g0, xscale, yscale, shifts.Dx(), shifts.Dy())
    ensures forall x, y :: 0 <= x < xscale && 0 <= y < yscale ==>
      (g[x][y].aliveCurrGen <==> LiveAt(g0, xscale, yscale, x - shifts.Dx(), y - shifts.Dy()))
  {
    TranslationWithoutWrap(g0, xscale, yscale, box.xMin, box.xMax, box.yMin, box.yMax, shifts.Dx(), shifts.Dy(), g);
  }

  /** The recentred table has the translated bounding box. */
  lemma CenteredBox(g0: Grid, xscale: nat, yscale: nat, box: Box, shifts: Shifts, g: Grid)
    requires IsGrid(g0, xscale, yscale) && BoundingBox(g0, xscale, yscale, box.xMin, box.xMax, box.yMin, box.yMax)
    requires 0 <= box.xMin + shifts.Dx() && box.xMax + shifts.Dx() < xscale
    requires 0 <= box.yMin + shifts.Dy() && box.yMax + shifts.Dy() < yscale
    requires Translated(g, g0, xscale, yscale, shifts.Dx(), shifts.Dy())
    ensures IsGrid(g, xscale, yscale)
    ensures BoundingBox(g, xscale, yscale, box.xMin + shifts.Dx(), box.xMax + shifts.Dx(),
                        box.yMin + shifts.Dy(), box.yMax + shifts.Dy())
  {
    TranslatedBoundingBox(g0, xscale, yscale, box.xMin, box.xMax, box.yMin, box.yMax, shifts.Dx(), shifts.Dy(), g);
  }

  /** Rotating a table whose bounding box the rotation keeps on the table
      moves the pattern and its box without wrap-around. */
  lemma CenteredMoved(g0: Grid, xscale: nat, yscale: nat, box: Box, shifts: Shifts, g: Grid)
    requires IsGrid(g0, xscale, yscale) && BoundingBox(g0, xscale, yscale, box.xMin, box.xMax, box.yMin, box.yMax)
    requires 0 <= box.xMin + shifts.Dx() && box.xMax + shifts.Dx() < xscale
    requires 0 <= box.yMin + shifts.Dy() && box.yMax + shifts.Dy() < yscale
    requires g == Recentered(g0, xscale, yscale, shifts)
    ensures IsGrid(g, xscale, yscale)
    ensures BoundingBox(g, xscale, yscale, box.xMin + shifts.Dx(), box.xMax + shifts.Dx(),
                        box.yMin + shifts.Dy(), box.yMax + shifts.Dy())
    ensures forall x, y :: 0 <= x < xscale && 0 <= y < yscale ==>
      (g[x][y].aliveCurrGen <==> LiveAt(g0, xscale, yscale, x - shifts.Dx(), y - shifts.Dy()))
  {
    RecenteredIsTranslated(g0, xscale, yscale, shifts);
    CenteredLive(g0, xscale, yscale, box, shifts, g);
    CenteredBox(g0, xscale, yscale, box, shifts, g);
  }

  /** `_center_on_alive_cells`: find the bounding box of the live cells,
      then rotate columns and rows one step at a time while the margins on
      the two sides of the box differ by more than one. */
  method Center(g0: Grid, xscale: nat, yscale: nat) returns (g: Grid, ghost shifts: Shifts, ghost box: Box)
    requires IsGrid(g0, xscale, yscale)
    ensures IsGrid(g, xscale, yscale)
    ensures g == Recentered(g0, xscale, yscale, shifts)
    ensures shifts.right == Passes(xscale - box.xMax - box.xMin) && shifts.left == Passes(box.xMin + box.xMax - xscale)
    ensures shifts.up == Passes(yscale - box.yMax - box.yMin) && shifts.down == Passes(box.yMin + box.yMax - yscale)
    ensures shifts.right == 0 || shifts.left == 0
    ensures shifts.up == 0 || shifts.down == 0
    ensures LiveCount(g) == LiveCount(g0)
    ensures AllDead(g0, xscale, yscale) ==>
      box == Box(xscale, 0, yscale, 0) && shifts == Shifts(0, 0, 0, 0) && g == g0
    ensures !AllDead(g0, xscale, yscale) ==>
      BoundingBox(g0, xscale, yscale, box.xMin, box.xMax, box.yMin, box.yMax)
    ensures !AllDead(g0, xscale, yscale) ==>
      BoundingBox(g, xscale, yscale, box.xMin + shifts.Dx(), box.xMax + shifts.Dx(),
                  box.yMin + shifts.Dy(), box.yMax + shifts.Dy())
    ensures !AllDead(g0, xscale, yscale) ==>
      Balanced(box.xMin + shifts.Dx(), box.xMax + shifts.Dx(), xscale) &&
      Balanced(box.yMin + shifts.Dy(), box.yMax + shifts.Dy(), yscale)
    ensures !AllDead(g0, xscale, yscale) ==>
      forall x, y :: 0 <= x < xscale && 0 <= y < yscale ==>
        (g[x][y].aliveCurrGen <==> LiveAt(g0, xscale, yscale, x - shifts.Dx(), y - shifts.Dy()))
  {
    var xMin, xMax, yMin, yMax := LiveBounds(g0, xscale, yscale);
    box := Box(xMin, xMax, yMin, yMax);
    ghost var right: nat, left: nat;
    g, right, left := CenterColumns(g0, xscale, yscale, xMin, xMax);
    ColumnsShiftedKeepsAllDead(g0, xscale, yscale, right, left);
    ghost var up: nat, down: nat;
    g, up, down := CenterRows(g, xscale, yscale, yMin, yMax);
    shifts := Shifts(right, left, up, down);
    assert shifts.right == Passes(xscale - box.xMax - box.xMin) && shifts.left == Passes(box.xMin + box.xMax - xscale);
    assert shifts.up == Passes(yscale - box.yMax - box.yMin) && shifts.down == Passes(box.yMin + box.yMax - yscale);
    if AllDead(g0, xscale, yscale) {
      RecenteredNone(g0, xscale, yscale);
    } else {
      CenteredMoved(g0, xscale, yscale, box, shifts, g);
    }
  }

  /** A table whose tight bounding box is already balanced is not rotated:
      the bounds search finds that box again, so every loop makes zero
      passes. Since `Center` leaves a balanced tight box, recentering a
      recentred table changes nothing. */
  lemma BalancedTableStays(g: Grid, xscale: nat, yscale: nat, box: Box, found: Box)
    requires IsGrid(g, xscale, yscale)
    requires BoundingBox(g, xscale, yscale, box.xMin, box.xMax, box.yMin, box.yMax)
    requires Balanced(box.xMin, box.xMax, xscale) && Balanced(box.yMin, box.yMax, yscale)
    requires BoundingBox(g, xscale, yscale, found.xMin, found.xMax, found.yMin, found.yMax)
    ensures Passes(xscale - found.xMax - found.xMin) == 0 && Passes(found.xMin + found.xMax - xscale) == 0
    ensures Passes(yscale - found.yMax - found.yMin) == 0 && Passes(found.yMin + found.yMax - yscale) == 0
  {
    BoundingBoxUnique(g, xscale, yscale, box.xMin, box.xMax, box.yMin, box.yMax,
                      found.xMin, found.xMax, found.yMin, found.yMax);
    BalancedNeedsNoPasses(box.xMin, box.xMax, xscale);
    BalancedNeedsNoPasses(box.yMin, box.yMax, yscale);
  }

  /** What recentering the seeded grid `g0` did, as `Center` states it:
      each loop made the passes its margin difference calls for, at most
      one per axis; an all-dead grid kept the sentinel bounds and was not
      rotated; otherwise `box` is its tight bounding box, which ends
      balanced, and the pattern is translated without wrap-around. */
  ghost predicate RecenteredAs(g0: Grid, xscale: nat, yscale: nat, shifts: Shifts, box: Box)
    requires IsGrid(g0, xscale, yscale)
  {
    && shifts.right == Passes(xscale - box.xMax - box.xMin) && shifts.left == Passes(box.xMin + box.xMax - xscale)
    && shifts.up == Passes(yscale - box.yMax - box.yMin) && shifts.down == Passes(box.yMin + box.yMax - yscale)
    && (shifts.right == 0 || shifts.left == 0) && (shifts.up == 0 || shifts.down == 0)
    && (AllDead(g0, xscale, yscale) ==> box == Box(xscale, 0, yscale, 0) && shifts == Shifts(0, 0, 0, 0))
    && (!AllDead(g0, xscale, yscale) ==>
          && BoundingBox(g0, xscale, yscale, box.xMin, box.xMax, box.yMin, box.yMax)
          && Balanced(box.xMin + shifts.Dx(), box.xMax + shifts.Dx(), xscale)
          && Balanced(box.yMin + shifts.Dy(), box.yMax + shifts.Dy(), yscale)
          && forall x, y :: 0 <= x < xscale && 0 <= y < yscale ==>
               (Recentered(g0, xscale, yscale, shifts)[x][y].aliveCurrGen <==>
                LiveAt(g0, xscale, yscale, x - shifts.Dx(), y - shifts.Dy())))
  }

  /** The grid `g` the constructor's prepare and advance leave from the
      grid `centered`: one tick of the prepared grid, that is Conway's next
      generation, with every live cell at streak 2 and every dead one at 0. */
  ghost predicate FirstGeneration(g: Grid, centered: Grid, xscale: nat, yscale: nat)
    requires IsGrid(centered, xscale, yscale)
  {
    && g == Tick(Prepared(centered, xscale, yscale), xscale, yscale)
    && forall x, y :: 0 <= x < xscale && 0 <= y < yscale ==>
         g[x][y].aliveCurrGen == LifeNext(centered, xscale, yscale, x, y) &&
         g[x][y].generationCnt == (if g[x][y].aliveCurrGen then 2 else 0)
  }

  class GameTable {
    const xscale: nat
    const yscale: nat
    /** `cells[x][y]`: the list of columns, each a list of cells. */
    var cells: Grid
    /** `px_arr`: the intensity of every cell, as the renderers read it. */
    const px: array2<int>

    ghost predicate Valid()
      reads this
    {
      IsGrid(cells, xscale, yscale) && px.Length0 == xscale && px.Length1 == yscale
    }

    /** The intensity array holds the saturated streak of every cell. */
    ghost predicate Shown()
      reads this, px
      requires Valid()
    {
      forall x, y :: 0 <= x < xscale && 0 <= y < yscale ==> px[x, y] == Intensity(cells[x][y].generationCnt)
    }

    /** The grid construction of `__init__`: a zeroed intensity array and
        `xscale` columns of `yscale` new cells. */
    constructor (xscale: nat, yscale: nat)
      ensures Valid() && fresh(px)
      ensures this.xscale == xscale && this.yscale == yscale
      ensures cells == Blank(xscale, yscale)
      ensures forall x, y :: 0 <= x < xscale && 0 <= y < yscale ==> px[x, y] == 0
    {
      this.xscale := xscale;
      this.yscale := yscale;
      px := new int[xscale, yscale]((x, y) => 0);
      var columns: Grid := [];
      for xx := 0 to xscale
        invariant |columns| == xx
        invariant forall x :: 0 <= x < xx ==> columns[x] == seq(yscale, y => NewCell)
      {
        columns := columns + [[]];
        for yy := 0 to yscale
          invariant |columns| == xx + 1
          invariant forall x :: 0 <= x < xx ==> columns[x] == seq(yscale, y => NewCell)
          invariant columns[xx] == seq(yy, y => NewCell)
        {
          columns := columns[xx := columns[xx] + [NewCell]];
        }
      }
      cells := columns;
    }

    /** `_prepare_generation`: every cell gets its next state and streak from
        its neighbour count. The pass writes only `aliveNextGen` and
        `generationCnt` and the count reads only `aliveCurrGen`, so updating
        in place computes the rule on the grid as it was before the pass. */
    method PrepareGeneration()
      requires Valid()
      modifies this
      ensures Valid()
      ensures cells == Prepared(old(cells), xscale, yscale)
    {
      ghost var g0 := cells;
      var g := cells;
      for xx := 0 to xscale
        invariant IsGrid(g, xscale, yscale) && SameCurrent(g, g0, xscale, yscale)
        invariant forall x, y :: 0 <= x < xx && 0 <= y < yscale ==> g[x][y] == PreparedAt(g0, xscale, yscale, x, y)
        invariant forall x :: xx <= x < xscale ==> g[x] == g0[x]
      {
        g := PrepareColumn(g, g0, xx);
        PreparedColumnsStep(g, g0, xscale, yscale, xx);
      }
      PreparedByCells(g, g0, xscale, yscale);
      cells := g;
    }

    /** The inner loop of `_prepare_generation`, over the cells of column
        `xx`: each gets its next state and streak from its neighbour count,
        and no other column changes. */
    method PrepareColumn(g0: Grid, ghost start: Grid, xx: nat) returns (g: Grid)
      requires IsGrid(g0, xscale, yscale) && IsGrid(start, xscale, yscale) && xx < xscale
      requires SameCurrent(g0, start, xscale, yscale) && g0[xx] == start[xx]
      ensures IsGrid(g, xscale, yscale) && SameCurrent(g, start, xscale, yscale)
      ensures forall x :: 0 <= x < xscale && x != xx ==> g[x] == g0[x]
      ensures forall y :: 0 <= y < yscale ==> g[xx][y] == PreparedAt(start, xscale, yscale, xx, y)
    {
      g := g0;
      for yy := 0 to yscale
        invariant IsGrid(g, xscale, yscale) && SameCurrent(g, start, xscale, yscale)
        invariant forall x :: 0 <= x < xscale && x != xx ==> g[x] == g0[x]
        invariant forall y :: 0 <= y < yy ==> g[xx][y] == PreparedAt(start, xscale, yscale, xx, y)
        invariant forall y :: yy <= y < yscale ==> g[xx][y] == start[xx][y]
      {
        var cnt := CountNeighbors(g, xscale, yscale, xx, yy);
        CountNeighborsReadsCurrent(g, start, xscale, yscale, xx, yy);
        var cell := g[xx][yy];
        if cell.aliveCurrGen {
          if cnt < 2 || cnt > 3 {
            cell := cell.(aliveNextGen := false);
          } else {
            cell := cell.(aliveNextGen := true);
          }
        } else {
          if cnt == 3 {
            cell := cell.(aliveNextGen := true);
          }
        }
        if cell.aliveNextGen {
          cell := cell.(generationCnt := cell.generationCnt + 1);
        } else {
          cell := cell.(generationCnt := 0);
        }
        assert cell == PreparedAt(start, xscale, yscale, xx, yy);
        g := g[xx := g[xx][yy := cell]];
      }
    }

    /** `advance_generation` without the redraw: prepare, then commit every
        cell's next state and write its intensity. */
    method AdvanceGeneration()
      requires Valid()
      modifies this, px
      ensures Valid() && Shown()
      ensures cells == Tick(old(cells), xscale, yscale)
    {
      PrepareGeneration();
      ghost var p := cells;
      var g := cells;
      for xx := 0 to xscale
        invariant Valid() && IsGrid(g, xscale, yscale)
        invariant forall x, y :: 0 <= x < xx && 0 <= y < yscale ==> g[x][y] == CommitCell(p[x][y])
        invariant forall x, y :: 0 <= x < xx && 0 <= y < yscale ==> px[x, y] == Intensity(g[x][y].generationCnt)
        invariant forall x :: xx <= x < xscale ==> g[x] == p[x]
      {
        g := CommitColumn(g, xx);
        CommittedColumnsStep(g, p, xscale, yscale, xx);
      }
      CommittedByCells(g, p, xscale, yscale);
      cells := g;
    }

    /** The inner loop of `advance_generation`, over the cells of column
        `xx`: commit each cell and write its intensity; no other column and
        no other column of the intensity array changes. */
    method CommitColumn(g0: Grid, xx: nat) returns (g: Grid)
      requires Valid() && IsGrid(g0, xscale, yscale) && xx < xscale
      modifies px
      ensures IsGrid(g, xscale, yscale)
      ensures forall x :: 0 <= x < xscale && x != xx ==> g[x] == g0[x]
      ensures forall y :: 0 <= y < yscale ==> g[xx][y] == CommitCell(g0[xx][y])
      ensures forall y :: 0 <= y < yscale ==> px[xx, y] == Intensity(g[xx][y].generationCnt)
      ensures forall x, y :: 0 <= x < xscale && x != xx && 0 <= y < yscale ==> px[x, y] == old(px[x, y])
    {
      g := g0;
      for yy := 0 to yscale
        invariant IsGrid(g, xscale, yscale)
        invariant forall x :: 0 <= x < xscale && x != xx ==> g[x] == g0[x]
        invariant forall y :: 0 <= y < yy ==>
          g[xx][y] == CommitCell(g0[xx][y]) && px[xx, y] == Intensity(g[xx][y].generationCnt)
        invariant forall y :: yy <= y < yscale ==> g[xx][y] == g0[xx][y]
        invariant forall x, y :: 0 <= x < xscale && x != xx && 0 <= y < yscale ==> px[x, y] == old(px[x, y])
      {
        g := g[xx := g[xx][yy := g[xx][yy].(aliveCurrGen := g[xx][yy].aliveNextGen)]];
        var color := 0;
        if g[xx][yy].generationCnt > 0 {
          if g[xx][yy].generationCnt >= 4 {
            color := 4;
          } else {
            color := g[xx][yy].generationCnt;
          }
        }
        px[xx, yy] := color;
      }
    }

    /** `_default_configuration`: set cells (ii, 50) alive for ii < 20. An
        index off the table raises IndexError, here the error result, with
        the cells marked before it kept. */
    method DefaultConfiguration() returns (err: Option<SeedError>)
      requires Valid()
      modifies this
      ensures Valid()
      ensures err == DefaultSeed(xscale, yscale).error
      ensures Marked(cells, old(cells), xscale, yscale, DefaultSeed(xscale, yscale).marked)
    {
      ghost var g0 := cells;
      var g := cells;
      MarkedNothing(g0, xscale, yscale);
      assert DefaultRow(0) == {};
      for ii := 0 to 20
        invariant IsGrid(g, xscale, yscale)
        invariant ii == 0 || (yscale > 50 && ii <= xscale)
        invariant Marked(g, g0, xscale, yscale, DefaultRow(ii))
      {
        if ii >= xscale || 50 >= yscale {
          cells := g;
          return Some(IndexOutOfRange);
        }
        MarkedOneMore(g, g0, xscale, yscale, DefaultRow(ii), ii, 50);
        DefaultRowStep(ii);
        g := g[ii := g[ii][50 := g[ii][50].(aliveCurrGen := true)]];
      }
      cells := g;
      return None;
    }

    /** `_parse_configuration_file` on the lines of an opened seed file: every
        `O` of a pattern row sets its cell alive. The IOErrors for a pattern
        too tall or too wide and the IndexError of an index off the table
        are the error result, with the cells marked before them kept. */
    method ParseConfiguration(lines: seq<string>) returns (err: Option<SeedError>)
      requires Valid()
      modifies this
      ensures Valid()
      ensures err == ScanSeed(lines, xscale, yscale).error
      ensures Marked(cells, old(cells), xscale, yscale, ScanSeed(lines, xscale, yscale).marked)
    {
      ghost var g0 := cells;
      ghost var full := ScanSeed(lines, xscale, yscale);
      var g := cells;
      ghost var done: set<(int, int)> := {};
      MarkedNothing(g0, xscale, yscale);
      assert Then(done, ScanLines(lines[0..], 0, xscale, yscale)) == full by {
        assert lines[0..] == lines;
        assert {} + full.marked == full.marked;
      }
      var xx, yy := 0, 0;
      var k := 0;
      while k < |lines|
        invariant 0 <= k <= |lines| && xx == 0
        invariant Marked(g, g0, xscale, yscale, done)
        invariant Then(done, ScanLines(lines[k..], yy, xscale, yscale)) == full
      {
        var line := lines[k];
        assert lines[k..][0] == line && lines[k..][1..] == lines[k + 1..];
        if |line| == 0 {
          assert done + {} == done;
          cells := g;
          return Some(IndexOutOfRange);
        }
        // a line starting with '!' is a comment: no row, no row-counter step
        if line[0] != '!' {
          if yy > yscale {
            assert done + {} == done;
            cells := g;
            return Some(TooTall(yy));
          }
          ghost var rest := ScanLines(lines[k + 1..], yy + 1, xscale, yscale);
          var j := 0;
          while j < |line|
            invariant 0 <= j <= |line| && xx == j
            invariant Marked(g, g0, xscale, yscale, done)
            invariant Then(done, RowThen(ScanChars(line[j..], xx, yy, xscale, yscale), rest)) == full
          {
            assert line[j..][0] == line[j] && line[j..][1..] == line[j + 1..];
            if xx > xscale {
              assert done + {} == done;
              cells := g;
              return Some(TooWide(xx));
            }
            if line[j] == 'O' {
              if xx >= xscale || yy >= yscale {
                assert done + {} == done;
                cells := g;
                return Some(IndexOutOfRange);
              }
              MarkedOneMore(g, g0, xscale, yscale, done, xx, yy);
              ThenMark(done, (xx, yy), ScanChars(line[j + 1..], xx + 1, yy, xscale, yscale), rest);
              g := g[xx := g[xx][yy := g[xx][yy].(aliveCurrGen := true)]];
              done := done + {(xx, yy)};
            }
            xx := xx + 1;
            j := j + 1;
          }
          assert line[j..] == [] && {} + rest.marked == rest.marked;
          xx := 0;
          yy := yy + 1;
        }
        k := k + 1;
      }
      assert done + {} == done;
      cells := g;
      return None;
    }

    /** `_init_configuration`: the default seed when there is no seed file,
        else the seed file's pattern. */
    method InitConfiguration(seed: Option<seq<string>>) returns (err: Option<SeedError>)
      requires Valid()
      modifies this
      ensures Valid()
      ensures err == Seeding(seed, xscale, yscale).error
      ensures Marked(cells, old(cells), xscale, yscale, Seeding(seed, xscale, yscale).marked)
    {
      if seed.None? {
        err := DefaultConfiguration();
      } else {
        err := ParseConfiguration(seed.value);
      }
    }

    /** `_center_on_alive_cells` on the table's own cells, with the
        contract of `Center`. */
    method CenterOnAliveCells() returns (ghost shifts: Shifts, ghost box: Box)
      requires Valid()
      modifies this
      ensures Valid()
      ensures cells == Recentered(old(cells), xscale, yscale, shifts)
      ensures shifts.right == Passes(xscale - box.xMax - box.xMin) && shifts.left == Passes(box.xMin + box.xMax - xscale)
      ensures shifts.up == Passes(yscale - box.yMax - box.yMin) && shifts.down == Passes(box.yMin + box.yMax - yscale)
      ensures shifts.right == 0 || shifts.left == 0
      ensures shifts.up == 0 || shifts.down == 0
      ensures LiveCount(cells) == LiveCount(old(cells))
      ensures AllDead(old(cells), xscale, yscale) ==>
        box == Box(xscale, 0, yscale, 0) && shifts == Shifts(0, 0, 0, 0) && cells == old(cells)
      ensures !AllDead(old(cells), xscale, yscale) ==>
        BoundingBox(old(cells), xscale, yscale, box.xMin, box.xMax, box.yMin, box.yMax) &&
        BoundingBox(cells, xscale, yscale, box.xMin + shifts.Dx(), box.xMax + shifts.Dx(),
                    box.yMin + shifts.Dy(), box.yMax + shifts.Dy()) &&
        Balanced(box.xMin + shifts.Dx(), box.xMax + shifts.Dx(), xscale) &&
        Balanced(box.yMin + shifts.Dy(), box.yMax + shifts.Dy(), yscale) &&
        forall x, y :: 0 <= x < xscale && 0 <= y < yscale ==>
          (cells[x][y].aliveCurrGen <==> LiveAt(old(cells), xscale, yscale, x - shifts.Dx(), y - shifts.Dy()))
    {
      var g: Grid;
      g, shifts, box := Center(cells, xscale, yscale);
      cells := g;
    }

    /** The rest of `__init__` once the table is seeded: recentre the live
        cells, prepare a generation and advance one. The recentring keeps
        the contract of `CenterOnAliveCells`; the generation is Conway's
        next one of the recentred grid, every live cell with streak 2. */
    method Start() returns (ghost shifts: Shifts, ghost box: Box)
      requires Valid() && Unprepared(cells, xscale, yscale)
      modifies this, px
      ensures Valid() && Shown()
      ensures RecenteredAs(old(cells), xscale, yscale, shifts, box)
      ensures FirstGeneration(cells, Recentered(old(cells), xscale, yscale, shifts), xscale, yscale)
    {
      ghost var seeded := cells;
      shifts, box := CenterOnAliveCells();
      ghost var centered: Grid := cells;
      PrepareGeneration();
      AdvanceGeneration();
      TranslationKeepsUnprepared(seeded, xscale, yscale, shifts);
      FirstTick(centered, xscale, yscale);
    }

    /** What `__init__` does after `_init_configuration`: a seeding error
        propagates out of the constructor and nothing more happens to the
        table; otherwise it goes on as `Start`. */
    method StartIfSeeded(err: Option<SeedError>, ghost seeded: Grid) returns (ghost shifts: Shifts, ghost box: Box)
      requires Valid() && cells == seeded && (err.None? ==> Unprepared(cells, xscale, yscale))
      modifies this, px
      ensures Valid() && (err.None? ==> Shown())
      ensures err.Some? ==> cells == seeded
      ensures err.None? ==> RecenteredAs(seeded, xscale, yscale, shifts, box)
      ensures err.None? ==> FirstGeneration(cells, Recentered(seeded, xscale, yscale, shifts), xscale, yscale)
    {
      shifts, box := *, *;
      if err.None? {
        shifts, box := Start();
      }
    }
  }

  /** `setup(filename)`, that is `GameTable.__init__` without the graphics:
      build the table, seed it, recentre the live cells, prepare and advance
      one generation. An error while seeding propagates out of the
      constructor in the source; here it is the error result, and the table
      is left as seeding left it. Otherwise the table holds Conway's next
      generation of the recentred seed, every live cell has streak 2 (the
      constructor prepares twice before its first commit), and the
      intensity array shows the streaks. */
  method Setup(xscale: nat, yscale: nat, seed: Option<seq<string>>)
    returns (t: GameTable, err: Option<SeedError>, ghost seeded: Grid, ghost shifts: Shifts, ghost box: Box)
    ensures fresh(t) && t.Valid() && t.xscale == xscale && t.yscale == yscale
    ensures err == Seeding(seed, xscale, yscale).error
    ensures Marked(seeded, Blank(xscale, yscale), xscale, yscale, Seeding(seed, xscale, yscale).marked)
    ensures err.Some? ==> t.cells == seeded
    ensures err.None? ==> t.Shown() && RecenteredAs(seeded, xscale, yscale, shifts, box)
    ensures err.None? ==> FirstGeneration(t.cells, Recentered(seeded, xscale, yscale, shifts), xscale, yscale)
  {
    t := new GameTable(xscale, yscale);
    err := t.InitConfiguration(seed);
    seeded := t.cells;
    MarkedKeepsUnprepared(seeded, Blank(xscale, yscale), xscale, yscale, Seeding(seed, xscale, yscale).marked);
    shifts, box := t.StartIfSeeded(err, seeded);
  }
}
