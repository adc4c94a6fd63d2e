/** The value-level facts behind `_center_on_alive_cells`: the list moves
    it performs, where they send every cell, the bounding box of the live
    cells it tracks, and the number of live cells, which no move changes. */
module Recenter {
  import opened LifeCell
  import opened LifeGrid

  /** `l.insert(0, l.pop())`: the last element moves to the front. */
  function LastToFront<T>(s: seq<T>): (r: seq<T>)
    requires |s| > 0
    ensures |r| == |s|
  {
    [s[|s| - 1]] + s[..|s| - 1]
  }

  /** `l.append(l.pop(0))`: the first element moves to the back. */
  function FirstToBack<T>(s: seq<T>): (r: seq<T>)
    requires |s| > 0
    ensures |r| == |s|
  {
    s[1..] + [s[0]]
  }

  /** The loop body of "shift right": the last column moves to the front. */
  function ColumnsLastToFront(g: Grid, xscale: nat, yscale: nat): (r: Grid)
    requires IsGrid(g, xscale, yscale) && xscale > 0
    ensures IsGrid(r, xscale, yscale)
  {
    LastToFront(g)
  }

  /** The loop body of "shift left": the first column moves to the back. */
  function ColumnsFirstToBack(g: Grid, xscale: nat, yscale: nat): (r: Grid)
    requires IsGrid(g, xscale, yscale) && xscale > 0
    ensures IsGrid(r, xscale, yscale)
  {
    FirstToBack(g)
  }

  /** The loop body of "shift up": every column's last row moves to its front. */
  function RowsLastToFront(g: Grid, xscale: nat, yscale: nat): (r: Grid)
    requires IsGrid(g, xscale, yscale) && yscale > 0
    ensures IsGrid(r, xscale, yscale)
  {
    seq(xscale, x requires 0 <= x < xscale => LastToFront(g[x]))
  }

  /** The loop body of "shift down": every column's first row moves to its back. */
  function RowsFirstToBack(g: Grid, xscale: nat, yscale: nat): (r: Grid)
    requires IsGrid(g, xscale, yscale) && yscale > 0
    ensures IsGrid(r, xscale, yscale)
  {
    seq(xscale, x requires 0 <= x < xscale => FirstToBack(g[x]))
  }

  /** `n` passes of "shift right". */
  function ColumnsLastToFrontTimes(g: Grid, xscale: nat, yscale: nat, n: nat): (r: Grid)
    requires IsGrid(g, xscale, yscale)
    ensures IsGrid(r, xscale, yscale)
  {
    if n == 0 || xscale == 0 then g
    else ColumnsLastToFront(ColumnsLastToFrontTimes(g, xscale, yscale, n - 1), xscale, yscale)
  }

  /** `n` passes of "shift left". */
  function ColumnsFirstToBackTimes(g: Grid, xscale: nat, yscale: nat, n: nat): (r: Grid)
    requires IsGrid(g, xscale, yscale)
    ensures IsGrid(r, xscale, yscale)
  {
    if n == 0 || xscale == 0 then g
    else ColumnsFirstToBack(ColumnsFirstToBackTimes(g, xscale, yscale, n - 1), xscale, yscale)
  }

  /** `n` passes of "shift up". */
  function RowsLastToFrontTimes(g: Grid, xscale: nat, yscale: nat, n: nat): (r: Grid)
    requires IsGrid(g, xscale, yscale)
    ensures IsGrid(r, xscale, yscale)
  {
    if n == 0 || yscale == 0 then g
    else RowsLastToFront(RowsLastToFrontTimes(g, xscale, yscale, n - 1), xscale, yscale)
  }

  /** `n` passes of "shift down". */
  function RowsFirstToBackTimes(g: Grid, xscale: nat, yscale: nat, n: nat): (r: Grid)
    requires IsGrid(g, xscale, yscale)
    ensures IsGrid(r, xscale, yscale)
  {
    if n == 0 || yscale == 0 then g
    else RowsFirstToBack(RowsFirstToBackTimes(g, xscale, yscale, n - 1), xscale, yscale)
  }

  /** `right` passes of "shift right" followed by `left` passes of "shift left". */
  function ColumnsShifted(g: Grid, xscale: nat, yscale: nat, right: nat, left: nat): (r: Grid)
    requires IsGrid(g, xscale, yscale)
    ensures IsGrid(r, xscale, yscale)
  {
    ColumnsFirstToBackTimes(ColumnsLastToFrontTimes(g, xscale, yscale, right), xscale, yscale, left)
  }

  /** `up` passes of "shift up" followed by `down` passes of "shift down". */
  function RowsShifted(g: Grid, xscale: nat, yscale: nat, up: nat, down: nat): (r: Grid)
    requires IsGrid(g, xscale, yscale)
    ensures IsGrid(r, xscale, yscale)
  {
    RowsFirstToBackTimes(RowsLastToFrontTimes(g, xscale, yscale, up), xscale, yscale, down)
  }

  /** How many passes each of the four loops of `_center_on_alive_cells` made. */
  datatype Shifts = Shifts(right: nat, left: nat, up: nat, down: nat) {
    /** Net displacement along the column axis. */
    function Dx(): int { right - left }
    /** Net displacement along the row axis. */
    function Dy(): int { up - down }
  }

  /** The table after the four loops, in the order the source runs them. */
  function Recentered(g: Grid, xscale: nat, yscale: nat, sh: Shifts): (r: Grid)
    requires IsGrid(g, xscale, yscale)
    ensures IsGrid(r, xscale, yscale)
  {
    RowsShifted(ColumnsShifted(g, xscale, yscale, sh.right, sh.left), xscale, yscale, sh.up, sh.down)
  }

  lemma DivModUnique(a: int, n: int, q: int, r: int)
    requires n > 0 && 0 <= r < n && a == q * n + r
    ensures a % n == r
  {
    var q0, r0 := a / n, a % n;
    assert (q - q0) * n == r0 - r;
    if q - q0 >= 1 {
      assert false;
    } else if q - q0 <= -1 {
      assert false;
    }
  }

  lemma ModShift(a: int, n: int)
    requires n > 0
    ensures (a + n) % n == a % n
  {
    var q, r := a / n, a % n;
    assert a + n == (q + 1) * n + r;
    DivModUnique(a + n, n, q + 1, r);
  }

  /** Reducing first and then subtracting gives the same residue. */
  lemma ModMinus(x: int, a: int, n: int)
    requires n > 0
    ensures ((x % n) - a) % n == (x - a) % n
  {
    var q, r := x / n, x % n;
    var q2, r2 := (r - a) / n, (r - a) % n;
    assert x == q * n + r;
    assert r - a == q2 * n + r2;
    assert x - a == (q + q2) * n + r2;
    DivModUnique(x - a, n, q + q2, r2);
  }

  /** One pass of "shift right" moves column `x - 1` to `x` and the last
      column to the front. */
  lemma ColumnsLastToFrontAt(h: Grid, xscale: nat, yscale: nat, x: int)
    requires IsGrid(h, xscale, yscale) && 0 <= x < xscale
    ensures ColumnsLastToFront(h, xscale, yscale)[x] == h[if x == 0 then xscale - 1 else x - 1]
  {
  }

  /** One pass of "shift left" moves column `x + 1` to `x` and the first
      column to the back. */
  lemma ColumnsFirstToBackAt(h: Grid, xscale: nat, yscale: nat, x: int)
    requires IsGrid(h, xscale, yscale) && 0 <= x < xscale
    ensures ColumnsFirstToBack(h, xscale, yscale)[x] == h[if x == xscale - 1 then 0 else x + 1]
  {
  }

  /** One pass of "shift up" moves row `y - 1` to `y` and the last row to
      the front, in every column. */
  lemma RowsLastToFrontAt(h: Grid, xscale: nat, yscale: nat, x: int, y: int)
    requires IsGrid(h, xscale, yscale) && 0 <= x < xscale && 0 <= y < yscale
    ensures RowsLastToFront(h, xscale, yscale)[x][y] == h[x][if y == 0 then yscale - 1 else y - 1]
  {
    assert RowsLastToFront(h, xscale, yscale)[x] == LastToFront(h[x]);
  }

  /** One pass of "shift down" moves row `y + 1` to `y` and the first row
      to the back, in every column. */
  lemma RowsFirstToBackAt(h: Grid, xscale: nat, yscale: nat, x: int, y: int)
    requires IsGrid(h, xscale, yscale) && 0 <= x < xscale && 0 <= y < yscale
    ensures RowsFirstToBack(h, xscale, yscale)[x][y] == h[x][if y == yscale - 1 then 0 else y + 1]
  {
    assert RowsFirstToBack(h, xscale, yscale)[x] == FirstToBack(h[x]);
  }

  /** After `k` passes of "shift right", column `x` is the column that was
      at `x - k`, taken cyclically. */
  lemma {:induction false} ColumnsLastToFrontTimesAt(g: Grid, xscale: nat, yscale: nat, k: nat, x: int)
    requires IsGrid(g, xscale, yscale) && 0 <= x < xscale
    ensures ColumnsLastToFrontTimes(g, xscale, yscale, k)[x] == g[(x - k) % xscale]
  {
    if k == 0 {
      DivModUnique(x - k, xscale, 0, x);
    } else {
      var h := ColumnsLastToFrontTimes(g, xscale, yscale, k - 1);
      ColumnsLastToFrontAt(h, xscale, yscale, x);
      if x == 0 {
        ColumnsLastToFrontTimesAt(g, xscale, yscale, k - 1, xscale - 1);
        var a: int := x - k;
        assert (xscale - 1) - (k - 1) == a + xscale;
        ModShift(a, xscale);
      } else {
        ColumnsLastToFrontTimesAt(g, xscale, yscale, k - 1, x - 1);
        assert (x - 1) - (k - 1) == x - k;
      }
    }
  }

  /** After `k` passes of "shift left", column `x` is the column that was
      at `x + k`, taken cyclically. */
  lemma {:induction false} ColumnsFirstToBackTimesAt(g: Grid, xscale: nat, yscale: nat, k: nat, x: int)
    requires IsGrid(g, xscale, yscale) && 0 <= x < xscale
    ensures ColumnsFirstToBackTimes(g, xscale, yscale, k)[x] == g[(x + k) % xscale]
  {
    if k == 0 {
      DivModUnique(x + k, xscale, 0, x);
    } else {
      var h := ColumnsFirstToBackTimes(g, xscale, yscale, k - 1);
      ColumnsFirstToBackAt(h, xscale, yscale, x);
      if x == xscale - 1 {
        ColumnsFirstToBackTimesAt(g, xscale, yscale, k - 1, 0);
        var a: int := 0 + (k - 1);
        assert x + k == a + xscale;
        ModShift(a, xscale);
      } else {
        ColumnsFirstToBackTimesAt(g, xscale, yscale, k - 1, x + 1);
        assert (x + 1) + (k - 1) == x + k;
      }
    }
  }

  /** After `k` passes of "shift up", row `y` of every column is the row
      that was at `y - k`, taken cyclically. */
  lemma {:induction false} RowsLastToFrontTimesAt(g: Grid, xscale: nat, yscale: nat, k: nat, x: int, y: int)
    requires IsGrid(g, xscale, yscale) && 0 <= x < xscale && 0 <= y < yscale
    ensures RowsLastToFrontTimes(g, xscale, yscale, k)[x][y] == g[x][(y - k) % yscale]
  {
    if k == 0 {
      DivModUnique(y - k, yscale, 0, y);
    } else {
      var h := RowsLastToFrontTimes(g, xscale, yscale, k - 1);
      RowsLastToFrontAt(h, xscale, yscale, x, y);
      if y == 0 {
        RowsLastToFrontTimesAt(g, xscale, yscale, k - 1, x, yscale - 1);
        var a: int := y - k;
        assert (yscale - 1) - (k - 1) == a + yscale;
        ModShift(a, yscale);
      } else {
        RowsLastToFrontTimesAt(g, xscale, yscale, k - 1, x, y - 1);
        assert (y - 1) - (k - 1) == y - k;
      }
    }
  }

  /** After `k` passes of "shift down", row `y` of every column is the row
      that was at `y + k`, taken cyclically. */
  lemma {:induction false} RowsFirstToBackTimesAt(g: Grid, xscale: nat, yscale: nat, k: nat, x: int, y: int)
    requires IsGrid(g, xscale, yscale) && 0 <= x < xscale && 0 <= y < yscale
    ensures RowsFirstToBackTimes(g, xscale, yscale, k)[x][y] == g[x][(y + k) % yscale]
  {
    if k == 0 {
      DivModUnique(y + k, yscale, 0, y);
    } else {
      var h := RowsFirstToBackTimes(g, xscale, yscale, k - 1);
      RowsFirstToBackAt(h, xscale, yscale, x, y);
      if y == yscale - 1 {
        RowsFirstToBackTimesAt(g, xscale, yscale, k - 1, x, 0);
        var a: int := 0 + (k - 1);
        assert y + k == a + yscale;
        ModShift(a, yscale);
      } else {
        RowsFirstToBackTimesAt(g, xscale, yscale, k - 1, x, y + 1);
        assert (y + 1) + (k - 1) == y + k;
      }
    }
  }

  /** The column loops together move column `x - d` to `x`, cyclically,
      where `d = right - left`. */
  lemma ColumnsShiftedAt(g: Grid, xscale: nat, yscale: nat, right: nat, left: nat, d: int, x: int)
    requires IsGrid(g, xscale, yscale) && 0 <= x < xscale && d == right - left
    ensures ColumnsShifted(g, xscale, yscale, right, left)[x] == g[(x - d) % xscale]
  {
    var h := ColumnsLastToFrontTimes(g, xscale, yscale, right);
    ColumnsFirstToBackTimesAt(h, xscale, yscale, left, x);
    ColumnsLastToFrontTimesAt(g, xscale, yscale, right, (x + left) % xscale);
    ModMinus(x + left, right, xscale);
    assert x + left - right == x - d;
  }

  /** The row loops together move row `y - d` to `y` in every column,
      cyclically, where `d = up - down`. */
  lemma RowsShiftedAt(g: Grid, xscale: nat, yscale: nat, up: nat, down: nat, d: int, x: int, y: int)
    requires IsGrid(g, xscale, yscale) && 0 <= x < xscale && 0 <= y < yscale && d == up - down
    ensures RowsShifted(g, xscale, yscale, up, down)[x][y] == g[x][(y - d) % yscale]
  {
    var h := RowsLastToFrontTimes(g, xscale, yscale, up);
    RowsFirstToBackTimesAt(h, xscale, yscale, down, x, y);
    RowsLastToFrontTimesAt(g, xscale, yscale, up, x, (y + down) % yscale);
    ModMinus(y + down, up, yscale);
    assert y + down - up == y - d;
  }

  /** The four loops translate the table cyclically: cell (x, y) afterwards
      is the cell that was at (x - Dx, y - Dy), both taken cyclically. */
  lemma TranslatedAt(g: Grid, xscale: nat, yscale: nat, sh: Shifts, x: int, y: int)
    requires IsGrid(g, xscale, yscale) && 0 <= x < xscale && 0 <= y < yscale
    ensures 0 <= (x - sh.Dx()) % xscale < xscale && 0 <= (y - sh.Dy()) % yscale < yscale
    ensures Recentered(g, xscale, yscale, sh)[x][y] == g[(x - sh.Dx()) % xscale][(y - sh.Dy()) % yscale]
  {
    var c := ColumnsShifted(g, xscale, yscale, sh.right, sh.left);
    RowsShiftedAt(c, xscale, yscale, sh.up, sh.down, sh.Dy(), x, y);
    ColumnsShiftedAt(g, xscale, yscale, sh.right, sh.left, sh.Dx(), x);
  }

  /** With no passes, the table is unchanged. */
  lemma RecenteredNone(g: Grid, xscale: nat, yscale: nat)
    requires IsGrid(g, xscale, yscale)
    ensures Recentered(g, xscale, yscale, Shifts(0, 0, 0, 0)) == g
  {
  }

  predicate AllDead(g: Grid, xscale: nat, yscale: nat)
    requires IsGrid(g, xscale, yscale)
  {
    forall x, y :: 0 <= x < xscale && 0 <= y < yscale ==> !g[x][y].aliveCurrGen
  }

  /** [xMin, xMax] x [yMin, yMax] is the tight bounding box of the live cells:
      it holds every live cell and each of its four sides touches one. */
  ghost predicate BoundingBox(g: Grid, xscale: nat, yscale: nat, xMin: int, xMax: int, yMin: int, yMax: int)
    requires IsGrid(g, xscale, yscale)
  {
    0 <= xMin <= xMax < xscale && 0 <= yMin <= yMax < yscale &&
    (forall x, y :: 0 <= x < xscale && 0 <= y < yscale && g[x][y].aliveCurrGen ==>
       xMin <= x <= xMax && yMin <= y <= yMax) &&
    (exists y :: 0 <= y < yscale && g[xMin][y].aliveCurrGen) &&
    (exists y :: 0 <= y < yscale && g[xMax][y].aliveCurrGen) &&
    (exists x :: 0 <= x < xscale && g[x][yMin].aliveCurrGen) &&
    (exists x :: 0 <= x < xscale && g[x][yMax].aliveCurrGen)
  }

  /** The margins `scale - hi` and `lo` the recentering loops compare differ
      by at most one. */
  predicate Balanced(lo: int, hi: int, scale: nat) {
    -1 <= (scale - hi) - lo <= 1
  }

  /** How many passes a recentering loop makes when the margin it grows
      exceeds the other by `d`: each pass narrows the difference by two, and
      the loop stops once it is at most one. */
  function Passes(d: int): (n: nat)
    ensures d > 1 ==> d - 2 * n == 0 || d - 2 * n == 1
    ensures d <= 1 ==> n == 0
  {
    if d > 1 then d / 2 else 0
  }

  /** A loop that has narrowed the difference `d` by two `n` times, stopping
      at the first difference of at most one, made `Passes(d)` passes. */
  lemma PassesOf(d: int, n: nat)
    requires d - 2 * n <= 1 && (n > 0 ==> d > 1 && d - 2 * n >= 0)
    ensures n == Passes(d)
  {
  }

  /** A box whose margins are already balanced is not rotated. */
  lemma BalancedNeedsNoPasses(lo: int, hi: int, scale: nat)
    requires Balanced(lo, hi, scale)
    ensures Passes(scale - hi - lo) == 0 && Passes(lo + hi - scale) == 0
  {
  }

  /** A table with a tight bounding box has a live cell. */
  lemma BoundingBoxIsAlive(g: Grid, xscale: nat, yscale: nat, xMin: int, xMax: int, yMin: int, yMax: int)
    requires IsGrid(g, xscale, yscale) && BoundingBox(g, xscale, yscale, xMin, xMax, yMin, yMax)
    ensures !AllDead(g, xscale, yscale)
  {
    var y :| 0 <= y < yscale && g[xMin][y].aliveCurrGen;
  }

  /** A table has one tight bounding box: each side touches a live cell, so
      it can lie neither inside nor outside another tight box's side. */
  lemma BoundingBoxUnique(g: Grid, xscale: nat, yscale: nat, xMin: int, xMax: int, yMin: int, yMax: int,
                          xMin': int, xMax': int, yMin': int, yMax': int)
    requires IsGrid(g, xscale, yscale)
    requires BoundingBox(g, xscale, yscale, xMin, xMax, yMin, yMax)
    requires BoundingBox(g, xscale, yscale, xMin', xMax', yMin', yMax')
    ensures xMin == xMin' && xMax == xMax' && yMin == yMin' && yMax == yMax'
  {
    var a :| 0 <= a < yscale && g[xMin][a].aliveCurrGen;
    var a' :| 0 <= a' < yscale && g[xMin'][a'].aliveCurrGen;
    var b :| 0 <= b < yscale && g[xMax][b].aliveCurrGen;
    var b' :| 0 <= b' < yscale && g[xMax'][b'].aliveCurrGen;
    var c :| 0 <= c < xscale && g[c][yMin].aliveCurrGen;
    var c' :| 0 <= c' < xscale && g[c'][yMin'].aliveCurrGen;
    var d :| 0 <= d < xscale && g[d][yMax].aliveCurrGen;
    var d' :| 0 <= d' < xscale && g[d'][yMax'].aliveCurrGen;
  }

  /** A residue that lands back in [0, n) after adding `d` back is the
      number it came from. */
  lemma ModBack(a: int, d: int, n: int)
    requires n > 0 && 0 <= a < n && 0 <= (a - d) % n + d < n
    ensures (a - d) % n + d == a
  {
    var q, r := (a - d) / n, (a - d) % n;
    assert a == q * n + (r + d);
    DivModUnique(a, n, q, r + d);
    DivModUnique(a, n, 0, a);
  }

  /** `r` is `g` rotated by `dx` columns and `dy` rows: cell (x, y) of `r`
      comes from cell ((x - dx) mod xscale, (y - dy) mod yscale) of `g`. */
  predicate Translated(r: Grid, g: Grid, xscale: nat, yscale: nat, dx: int, dy: int)
    requires IsGrid(g, xscale, yscale)
  {
    IsGrid(r, xscale, yscale) &&
    forall x, y :: 0 <= x < xscale && 0 <= y < yscale ==>
      0 <= (x - dx) % xscale < xscale && 0 <= (y - dy) % yscale < yscale &&
      r[x][y] == g[(x - dx) % xscale][(y - dy) % yscale]
  }

  /** The four recentering loops rotate the table by (Dx, Dy). */
  lemma RecenteredIsTranslated(g: Grid, xscale: nat, yscale: nat, sh: Shifts)
    requires IsGrid(g, xscale, yscale)
    ensures Translated(Recentered(g, xscale, yscale, sh), g, xscale, yscale, sh.Dx(), sh.Dy())
  {
    forall x, y | 0 <= x < xscale && 0 <= y < yscale
      ensures 0 <= (x - sh.Dx()) % xscale < xscale && 0 <= (y - sh.Dy()) % yscale < yscale
      ensures Recentered(g, xscale, yscale, sh)[x][y] == g[(x - sh.Dx()) % xscale][(y - sh.Dy()) % yscale]
    {
      TranslatedAt(g, xscale, yscale, sh, x, y);
    }
  }

  /** A translation that moves the bounding box without pushing it off an
      edge carries the live pattern with no wrap-around: (x, y) is alive
      afterwards exactly when (x - dx, y - dy) was alive before. */
  lemma TranslationWithoutWrap(g: Grid, xscale: nat, yscale: nat, xMin: int, xMax: int, yMin: int, yMax: int,
                               dx: int, dy: int, r: Grid)
    requires IsGrid(g, xscale, yscale) && BoundingBox(g, xscale, yscale, xMin, xMax, yMin, yMax)
    requires 0 <= xMin + dx && xMax + dx < xscale && 0 <= yMin + dy && yMax + dy < yscale
    requires Translated(r, g, xscale, yscale, dx, dy)
    ensures forall x, y :: 0 <= x < xscale && 0 <= y < yscale ==>
      (r[x][y].aliveCurrGen <==> LiveAt(g, xscale, yscale, x - dx, y - dy))
  {
    forall x, y | 0 <= x < xscale && 0 <= y < yscale
      ensures r[x][y].aliveCurrGen <==> LiveAt(g, xscale, yscale, x - dx, y - dy)
    {
      var i, j := (x - dx) % xscale, (y - dy) % yscale;
      if LiveAt(g, xscale, yscale, x - dx, y - dy) {
        DivModUnique(x - dx, xscale, 0, x - dx);
        DivModUnique(y - dy, yscale, 0, y - dy);
      }
      if r[x][y].aliveCurrGen {
        assert g[i][j].aliveCurrGen;
        ModBack(x, dx, xscale);
        ModBack(y, dy, yscale);
      }
    }
  }

  /** The loops move cells but change none, so a table with fresh double
      buffers keeps them. */
  lemma TranslationKeepsUnprepared(g: Grid, xscale: nat, yscale: nat, sh: Shifts)
    requires IsGrid(g, xscale, yscale) && Unprepared(g, xscale, yscale)
    ensures Unprepared(Recentered(g, xscale, yscale, sh), xscale, yscale)
  {
    var r: Grid := Recentered(g, xscale, yscale, sh);
    forall x, y | 0 <= x < xscale && 0 <= y < yscale
      ensures !r[x][y].aliveNextGen && r[x][y].generationCnt == 0
    {
      TranslatedAt(g, xscale, yscale, sh, x, y);
    }
  }

  /** The column loops neither create nor remove live cells. */
  lemma ColumnsShiftedKeepsAllDead(g: Grid, xscale: nat, yscale: nat, right: nat, left: nat)
    requires IsGrid(g, xscale, yscale)
    ensures AllDead(ColumnsShifted(g, xscale, yscale, right, left), xscale, yscale) <==> AllDead(g, xscale, yscale)
  {
    var r: Grid := ColumnsShifted(g, xscale, yscale, right, left);
    var dx := right - left;
    if !AllDead(g, xscale, yscale) {
      var x, y :| 0 <= x < xscale && 0 <= y < yscale && g[x][y].aliveCurrGen;
      var i := (x + dx) % xscale;
      var q := (x + dx) / xscale;
      assert i - dx == -q * xscale + x;
      DivModUnique(i - dx, xscale, -q, x);
      ColumnsShiftedAt(g, xscale, yscale, right, left, dx, i);
      assert r[i][y].aliveCurrGen;
    }
    if !AllDead(r, xscale, yscale) {
      var x, y :| 0 <= x < xscale && 0 <= y < yscale && r[x][y].aliveCurrGen;
      ColumnsShiftedAt(g, xscale, yscale, right, left, dx, x);
      assert g[(x - dx) % xscale][y].aliveCurrGen;
    }
  }

  /** A cell the translation does not wrap lands dx columns and dy rows on. */
  lemma TranslatedLive(g: Grid, xscale: nat, yscale: nat, dx: int, dy: int, r: Grid, x: int, y: int)
    requires IsGrid(g, xscale, yscale) && Translated(r, g, xscale, yscale, dx, dy)
    requires 0 <= x < xscale && 0 <= y < yscale
    requires 0 <= x + dx < xscale && 0 <= y + dy < yscale
    ensures r[x + dx][y + dy] == g[x][y]
  {
    assert (x + dx) - dx == x && (y + dy) - dy == y;
    DivModUnique(x, xscale, 0, x);
    DivModUnique(y, yscale, 0, y);
  }

  /** Every live cell after a translation that pushes the bounding box off
      no edge lies in the translated box. */
  lemma TranslatedBoxContains(g: Grid, xscale: nat, yscale: nat, xMin: int, xMax: int, yMin: int, yMax: int,
                              dx: int, dy: int, r: Grid, x: int, y: int)
    requires IsGrid(g, xscale, yscale) && BoundingBox(g, xscale, yscale, xMin, xMax, yMin, yMax)
    requires 0 <= xMin + dx && xMax + dx < xscale && 0 <= yMin + dy && yMax + dy < yscale
    requires Translated(r, g, xscale, yscale, dx, dy)
    requires 0 <= x < xscale && 0 <= y < yscale && r[x][y].aliveCurrGen
    ensures xMin + dx <= x <= xMax + dx && yMin + dy <= y <= yMax + dy
  {
    var i, j := (x - dx) % xscale, (y - dy) % yscale;
    assert g[i][j].aliveCurrGen;
    ModBack(x, dx, xscale);
    ModBack(y, dy, yscale);
  }

  /** A column with a live cell lands, when it does not wrap, dx columns on
      as a column with a live cell. */
  lemma TranslatedColumnAlive(g: Grid, xscale: nat, yscale: nat, dx: int, dy: int, r: Grid, x: int, x': int)
    requires IsGrid(g, xscale, yscale) && Translated(r, g, xscale, yscale, dx, dy)
    requires 0 <= x < xscale && x' == x + dx && 0 <= x' < xscale
    requires forall y :: 0 <= y < yscale && g[x][y].aliveCurrGen ==> 0 <= y + dy < yscale
    requires exists y :: 0 <= y < yscale && g[x][y].aliveCurrGen
    ensures exists y :: 0 <= y < yscale && r[x'][y].aliveCurrGen
  {
    var a :| 0 <= a < yscale && g[x][a].aliveCurrGen;
    TranslatedLive(g, xscale, yscale, dx, dy, r, x, a);
    assert r[x'][a + dy].aliveCurrGen;
  }

  /** A row with a live cell lands, when it does not wrap, dy rows on as a
      row with a live cell. */
  lemma TranslatedRowAlive(g: Grid, xscale: nat, yscale: nat, dx: int, dy: int, r: Grid, y: int)
    requires IsGrid(g, xscale, yscale) && Translated(r, g, xscale, yscale, dx, dy)
    requires 0 <= y < yscale && 0 <= y + dy < yscale
    requires forall x :: 0 <= x < xscale && g[x][y].aliveCurrGen ==> 0 <= x + dx < xscale
    requires exists x :: 0 <= x < xscale && g[x][y].aliveCurrGen
    ensures exists x :: 0 <= x < xscale && r[x][y + dy].aliveCurrGen
  {
    var c :| 0 <= c < xscale && g[c][y].aliveCurrGen;
    TranslatedLive(g, xscale, yscale, dx, dy, r, c, y);
    assert r[c + dx][y + dy].aliveCurrGen;
  }

  /** The tight bounding box of a pattern translated without wrap-around is
      the translated box. */
  lemma TranslatedBoundingBox(g: Grid, xscale: nat, yscale: nat, xMin: int, xMax: int, yMin: int, yMax: int,
                              dx: int, dy: int, r: Grid)
    requires IsGrid(g, xscale, yscale) && BoundingBox(g, xscale, yscale, xMin, xMax, yMin, yMax)
    requires 0 <= xMin + dx && xMax + dx < xscale && 0 <= yMin + dy && yMax + dy < yscale
    requires Translated(r, g, xscale, yscale, dx, dy)
    ensures IsGrid(r, xscale, yscale)
    ensures BoundingBox(r, xscale, yscale, xMin + dx, xMax + dx, yMin + dy, yMax + dy)
  {
    TranslatedColumnAlive(g, xscale, yscale, dx, dy, r, xMin, xMin + dx);
    TranslatedColumnAlive(g, xscale, yscale, dx, dy, r, xMax, xMax + dx);
    TranslatedRowAlive(g, xscale, yscale, dx, dy, r, yMin);
    TranslatedRowAlive(g, xscale, yscale, dx, dy, r, yMax);
    forall x, y | 0 <= x < xscale && 0 <= y < yscale && r[x][y].aliveCurrGen
      ensures xMin + dx <= x <= xMax + dx && yMin + dy <= y <= yMax + dy
    {
      TranslatedBoxContains(g, xscale, yscale, xMin, xMax, yMin, yMax, dx, dy, r, x, y);
    }
  }

  /** Number of live cells in one column. */
  function ColumnLiveCount(c: seq<Cell>): nat {
    if c == [] then 0 else ColumnLiveCount(c[..|c| - 1]) + (if c[|c| - 1].aliveCurrGen then 1 else 0)
  }

  /** Number of live cells on the table. */
  function LiveCount(g: Grid): nat {
    if g == [] then 0 else LiveCount(g[..|g| - 1]) + ColumnLiveCount(g[|g| - 1])
  }

  lemma {:induction false} ColumnLiveCountConcat(a: seq<Cell>, b: seq<Cell>)
    ensures ColumnLiveCount(a + b) == ColumnLiveCount(a) + ColumnLiveCount(b)
  {
    if b != [] {
      assert (a + b)[..|a + b| - 1] == a + b[..|b| - 1];
      ColumnLiveCountConcat(a, b[..|b| - 1]);
    } else {
      assert a + b == a;
    }
  }

  lemma {:induction false} LiveCountConcat(a: Grid, b: Grid)
    ensures LiveCount(a + b) == LiveCount(a) + LiveCount(b)
  {
    if b != [] {
      assert (a + b)[..|a + b| - 1] == a + b[..|b| - 1];
      LiveCountConcat(a, b[..|b| - 1]);
    } else {
      assert a + b == a;
    }
  }

  lemma ColumnLastToFrontKeepsCount(c: seq<Cell>)
    requires |c| > 0
    ensures ColumnLiveCount(LastToFront(c)) == ColumnLiveCount(c)
  {
    var n := |c|;
    ColumnLiveCountConcat([c[n - 1]], c[..n - 1]);
    assert ColumnLiveCount([c[n - 1]]) == if c[n - 1].aliveCurrGen then 1 else 0 by {
      assert [c[n - 1]][..0] == [];
    }
  }

  lemma ColumnFirstToBackKeepsCount(c: seq<Cell>)
    requires |c| > 0
    ensures ColumnLiveCount(FirstToBack(c)) == ColumnLiveCount(c)
  {
    assert c == [c[0]] + c[1..];
    ColumnLiveCountConcat([c[0]], c[1..]);
    ColumnLiveCountConcat(c[1..], [c[0]]);
  }

  lemma LastToFrontKeepsCount(g: Grid)
    requires |g| > 0
    ensures LiveCount(LastToFront(g)) == LiveCount(g)
  {
    var n := |g|;
    LiveCountConcat([g[n - 1]], g[..n - 1]);
    assert LiveCount([g[n - 1]]) == ColumnLiveCount(g[n - 1]) by {
      assert [g[n - 1]][..0] == [];
    }
  }

  lemma FirstToBackKeepsCount(g: Grid)
    requires |g| > 0
    ensures LiveCount(FirstToBack(g)) == LiveCount(g)
  {
    assert g == [g[0]] + g[1..];
    LiveCountConcat([g[0]], g[1..]);
    LiveCountConcat(g[1..], [g[0]]);
  }

  /** The live cells of a grid split around one column. */
  lemma LiveCountAround(pre: Grid, c: seq<Cell>, post: Grid)
    ensures LiveCount(pre + [c] + post) == LiveCount(pre) + ColumnLiveCount(c) + LiveCount(post)
  {
    LiveCountConcat(pre + [c], post);
    LiveCountConcat(pre, [c]);
    assert [c][..0] == [];
  }

  /** Replacing one column by a column with as many live cells keeps the count. */
  lemma ReplaceColumnKeepsCount(g: Grid, x: nat, c: seq<Cell>)
    requires x < |g| && ColumnLiveCount(c) == ColumnLiveCount(g[x])
    ensures LiveCount(g[x := c]) == LiveCount(g)
  {
    var pre, post := g[..x], g[x + 1..];
    assert g == pre + [g[x]] + post;
    assert g[x := c] == pre + [c] + post;
    LiveCountAround(pre, g[x], post);
    LiveCountAround(pre, c, post);
  }
}
