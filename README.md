# Game of Life table, modelled in Dafny

This project models the simulation engine of `GameTable` in `life_game.py`, a
Game of Life program. The parts modelled are:

- **The table.** It has `xscale` columns of `yscale` cells each, stored
  column-major as `cells[x][y]`. A same-shaped integer array `px_arr` holds
  each cell's display intensity.
- **The generation step.**
  - `_count_neighbors` counts live neighbours, with no wrap-around.
  - `_prepare_generation` computes each cell's next state and its streak
    counter `generation_cnt`.
  - `advance_generation` prepares again, then commits and writes intensities.
- **Recentering.** `_center_on_alive_cells` finds the bounding box of the live
  cells. It then rotates columns and rows until the box is centred.
- **Seeding.**
  - `_default_configuration` writes a horizontal line of twenty cells at row 50.
  - The line scanner of `_parse_configuration_file` reads a pattern file.
- **The constructor.** It chains the above: build, seed, recentre, prepare,
  advance.

Modules, one file each:

- **`LifeCell`** (`cell.dfy`). The `Cell` record and the per-cell effect of
  the prepare and commit passes. It also states Conway's rule B3/S23 on its
  own terms, without reference to the code.
- **`LifeGrid`** (`grid.dfy`). The grid as a value. `CountNeighbors` is proved
  equal to the size of an independently defined neighbourhood set.
  `Prepared` and `Tick` give the whole-grid effect of the two passes, and
  lemmas relate them to Conway's rule.
- **`Recenter`** (`recenter.dfy`). The four rotations (`insert(0, pop())` and
  `append(pop(0))` on columns and on rows) and their iterates. They are proved
  to be a cyclic translation by (right - left, up - down). When the bounding
  box does not cross an edge, it is a translation without wrap-around.
  Bounding boxes, balance and live-cell counts are defined here too.
- **`SeedScan`** (`seed.dfy`). The seed scanner and the default seed as
  functions returning the cells marked and the error that stopped them. A
  reference description of a pattern file (its non-comment rows and the `O`s
  in them) is proved to agree with the scanner.
- **`LifeGame`** (`game_table.dfy`).
  - The `GameTable` class: `cells` is a `seq<seq<Cell>>` field that the
    methods reassign, and `px` is an `array2<int>` written element by element.
  - Methods with the source's loops, each proved against the functions above
    (`PrepareGeneration`, `AdvanceGeneration`, `CenterOnAliveCells`,
    `ParseConfiguration` and the rest).
  - `Setup`, modelling `setup(filename)`, which runs the constructor.

How the source's inputs appear in the model:

- **Table size.** `xscale` and `yscale` are parameters. The source takes them
  from the graphics back end.
- **The seed file.** It is the sequence of its lines, each still including its
  line terminator as Python's file iteration yields it. The terminator is just
  a character other than `O`: it advances the column counter and can trip the
  width test.
- **No seed file.** The seed is `None`. `None` also stands for a file that
  cannot be opened, since the source then falls back to the default seed.
- **Exceptions.** They are the `SeedError` result of seeding:
  - `TooTall(yy)` for the height test;
  - `TooWide(xx)` for the width test;
  - `IndexOutOfRange` for Python's `IndexError`, from an index off the table,
    or `line[0]` of an empty line.
  The cells marked before the error stay marked, as in the source.

Behaviour of the code worth noting, which the model follows as written:

- **The scanner's bounds tests use `>`** (`yy > yscale`, `xx > xscale`).
  - An `O` in column `xscale` or row `yscale` passes them and raises
    `IndexError` when it indexes the table.
  - A row of `xscale + 1` characters plus its terminator fails the width test
    at its terminator, with three exceptions:
    - its row counter fails the height test, so no character is read;
    - an `O` sits in column `xscale`, which raises `IndexError` first;
    - the row is row `yscale` and holds an `O`, which also raises
      `IndexError` first.
  - A too-large pattern is not rejected before any cell is marked: the cells
    already marked stay marked.
- **The default seed** raises `IndexError` on a table smaller than 20 x 51,
  after marking the cells that fit.
- **Python's `while ... else` in the recentering** always reaches the second
  loop of each axis. The model proves that its body never runs once the first
  loop has run.

In the table below, `Passes(d)` is the number of passes a recentering loop
makes when the margin it grows exceeds the other by `d`: `d / 2` when `d > 1`
and 0 otherwise.

## Model

| member | source | states |
|---|---|---|
| LifeCell.PrepareCell | life_game.py:183-195 | Preparing a cell keeps its current state. Its next state becomes alive exactly under the life rule, or when the cell is dead and was already marked next-alive. The streak grows by one when the cell is next-alive and is zero exactly when it is not. |
| LifeCell.PrepareCellIsLife | life_game.py:183-190 | A cell that is not dead with a stale next-alive flag gets exactly Conway's rule B3/S23 as its next state. |
| LifeCell.PrepareCellTwice | life_game.py:183-195 | Preparing twice with the same count keeps the first pass's next state and adds two to the streak of a next-alive cell. |
| LifeCell.CommitCell | life_game.py:241-242 | The commit of one cell: its next state becomes its current state. `LifeGrid.TickCommits` states what the whole pass leaves. |
| LifeCell.Intensity | life_game.py:244-251 | The colour written for a streak is at most 4 and at most the streak, and it is the streak itself or 4. |
| LifeGrid.CountNeighbors | life_game.py:197-233 | The neighbour count is at most 8, at most 3 at a corner and at most 5 on an edge. Every probe indexes inside the table. |
| LifeGrid.CountNeighborsIsLiveNeighbors | life_game.py:197-233 | The count equals the number of live cells of the table within one step in both coordinates, the cell itself excluded, with no wrap-around. |
| LifeGrid.CountNeighborsReadsCurrent | life_game.py:207-231 | The count depends only on current-generation flags: two grids that agree on them give the same count everywhere. |
| LifeGrid.PreparedAt | life_game.py:180-195 | The cell at (x, y) after the prepare pass, computed from the grid before the pass. `LifeGrid.PreparedIsLife` shows it follows Conway's rule. |
| LifeGrid.Prepared | life_game.py:178-195 | The grid after the prepare pass keeps the table's shape. `LifeGrid.PreparedKeepsCurrent` and `LifeGrid.PreparedIsLife` state its content. |
| LifeGrid.Committed | life_game.py:239-242 | The grid after the commit pass keeps the table's shape. `LifeGrid.TickCommits` states its content. |
| LifeGrid.Tick | life_game.py:235-242 | One `advance_generation` on the cells keeps the table's shape. `LifeGrid.TickCommits` and `LifeGrid.TickIsLife` state its content. |
| LifeGrid.PreparedByCells | life_game.py:180-181 | Helper for the prepare loops: a grid that holds the prepared cell at every position is the prepared grid. |
| LifeGrid.CommittedByCells | life_game.py:239-242 | Helper for the commit loops: a grid that holds the committed cell at every position is the committed grid. |
| LifeGrid.PreparedKeepsCurrent | life_game.py:178-195 | The prepare pass changes no current state. Afterwards a cell's streak is zero exactly when it is not next-alive. |
| LifeGrid.PreparedIsLife | life_game.py:178-195 | On a grid with no stale next-alive flags, the prepare pass sets every cell's next state to Conway's rule applied to the current generation. |
| LifeGrid.PreparedTwice | life_game.py:66-67 | Preparing the grid twice before a commit recomputes the same next states. It adds two to the streak of every next-alive cell and clears the rest. |
| LifeGrid.TickCommits | life_game.py:235-242 | After a tick every cell's current and next states agree, and its streak is zero exactly when it is dead. A live cell's streak is one more than before the tick, and no stale next-alive flag is left. |
| LifeGrid.TickIsLife | life_game.py:235-242 | On a grid with no stale flags a tick moves the current generation one step of Conway's Game of Life and leaves no stale flag for the next tick. |
| LifeGrid.FirstTick | life_game.py:66-67 | From a freshly seeded table, the constructor's prepare then advance yields Conway's next generation, with every live cell at streak 2 and every dead cell at 0. |
| Recenter.LastToFront | life_game.py:281 | `insert(0, pop())` on a list keeps its length. `Recenter.ColumnsLastToFrontAt` and `Recenter.RowsLastToFrontAt` state where each element goes. |
| Recenter.FirstToBack | life_game.py:287 | `append(pop(0))` on a list keeps its length. `Recenter.ColumnsFirstToBackAt` and `Recenter.RowsFirstToBackAt` state where each element goes. |
| Recenter.ColumnsLastToFront | life_game.py:281 | One "shift right" body keeps the table's shape. `Recenter.ColumnsLastToFrontAt` and `Recenter.LastToFrontKeepsCount` state its effect. |
| Recenter.ColumnsFirstToBack | life_game.py:287 | One "shift left" body keeps the table's shape. `Recenter.ColumnsFirstToBackAt` and `Recenter.FirstToBackKeepsCount` state its effect. |
| Recenter.RowsLastToFront | life_game.py:293-294 | One "shift up" body keeps the table's shape. `Recenter.RowsLastToFrontAt` and `LifeGame.ShiftUp` state its effect. |
| Recenter.RowsFirstToBack | life_game.py:300-301 | One "shift down" body keeps the table's shape. `Recenter.RowsFirstToBackAt` and `LifeGame.ShiftDown` state its effect. |
| Recenter.ColumnsLastToFrontTimes | life_game.py:278-281 | Helper: the k-th iterate of one "shift right" body, keeping the table's shape. `Recenter.ColumnsLastToFrontTimesAt` states its effect. |
| Recenter.ColumnsFirstToBackTimes | life_game.py:284-287 | Helper: the k-th iterate of one "shift left" body, keeping the table's shape. `Recenter.ColumnsFirstToBackTimesAt` states its effect. |
| Recenter.RowsLastToFrontTimes | life_game.py:290-294 | Helper: the k-th iterate of one "shift up" body, keeping the table's shape. `Recenter.RowsLastToFrontTimesAt` states its effect. |
| Recenter.RowsFirstToBackTimes | life_game.py:297-301 | Helper: the k-th iterate of one "shift down" body, keeping the table's shape. `Recenter.RowsFirstToBackTimesAt` states its effect. |
| Recenter.ColumnsShifted | life_game.py:278-287 | Helper: the combined effect of the two column loops, `right` "shift right" passes then `left` "shift left" passes. `Recenter.ColumnsShiftedAt` states it. |
| Recenter.RowsShifted | life_game.py:290-301 | Helper: the combined effect of the two row loops, `up` "shift up" passes then `down` "shift down" passes. `Recenter.RowsShiftedAt` states it. |
| Recenter.ColumnsLastToFrontAt | life_game.py:281 | One "shift right" pass puts column x - 1 at x and the last column at the front. |
| Recenter.ColumnsFirstToBackAt | life_game.py:287 | One "shift left" pass puts column x + 1 at x and the first column at the back. |
| Recenter.RowsLastToFrontAt | life_game.py:293-294 | One "shift up" pass puts row y - 1 at y and the last row at the front, in every column. |
| Recenter.RowsFirstToBackAt | life_game.py:300-301 | One "shift down" pass puts row y + 1 at y and the first row at the back, in every column. |
| Recenter.ColumnsLastToFrontTimesAt | life_game.py:278-281 | After k "shift right" passes, column x is the column that was at x - k, cyclically. |
| Recenter.ColumnsFirstToBackTimesAt | life_game.py:284-287 | After k "shift left" passes, column x is the column that was at x + k, cyclically. |
| Recenter.RowsLastToFrontTimesAt | life_game.py:290-294 | After k "shift up" passes, row y of every column is the row that was at y - k, cyclically. |
| Recenter.RowsFirstToBackTimesAt | life_game.py:297-301 | After k "shift down" passes, row y of every column is the row that was at y + k, cyclically. |
| Recenter.ColumnsShiftedAt | life_game.py:278-287 | The two column loops together move column x - (right - left) to x, cyclically. |
| Recenter.RowsShiftedAt | life_game.py:290-301 | The two row loops together move row y - (up - down) to y in every column, cyclically. |
| Recenter.Recentered | life_game.py:277-301 | The table after the four loops, in the source's order, keeps its shape. `Recenter.TranslatedAt` and `Recenter.RecenteredIsTranslated` show it is a cyclic translation. |
| Recenter.TranslatedAt | life_game.py:277-301 | The four loops translate the table cyclically by (Dx, Dy): cell (x, y) afterwards is the cell that was at ((x - Dx) mod xscale, (y - Dy) mod yscale). |
| Recenter.RecenteredIsTranslated | life_game.py:277-301 | The four loops' result is the table translated by (Dx, Dy), for every cell at once. |
| Recenter.RecenteredNone | life_game.py:277-301 | With no loop passes the table is unchanged. |
| Recenter.Passes | life_game.py:277-301 | A loop whose margin difference starts at most 1 makes no pass. Otherwise it makes the passes that bring the difference, two at a time, down to 0 or 1. |
| Recenter.PassesOf | life_game.py:277-301 | A loop that narrows the difference by two per pass and stops at the first difference of at most one makes exactly `Passes(d)` passes. |
| Recenter.BalancedNeedsNoPasses | life_game.py:277-301 | A box whose margins already differ by at most one needs no pass in either direction. |
| Recenter.BoundingBoxIsAlive | life_game.py:265-275 | A table with a tight bounding box has a live cell. |
| Recenter.BoundingBoxUnique | life_game.py:258-275 | A table has at most one tight bounding box. |
| Recenter.TranslationWithoutWrap | life_game.py:277-301 | A translation that keeps the bounding box on the table carries the pattern without wrap-around. A cell is alive afterwards exactly when the cell (x - dx, y - dy) was alive before. |
| Recenter.TranslatedLive | life_game.py:277-301 | A translation without wrap-around puts cell (x, y) at (x + dx, y + dy). |
| Recenter.TranslatedBoundingBox | life_game.py:277-301 | A translation that keeps the bounding box on the table moves the tight bounding box by (dx, dy). |
| Recenter.TranslationKeepsUnprepared | life_game.py:281-301 | The loops move cells without changing them, so a table with clear next-alive flags and zero streaks keeps them. |
| Recenter.ColumnsShiftedKeepsAllDead | life_game.py:278-287 | The column loops leave a table all-dead exactly when it was all-dead. |
| Recenter.LastToFrontKeepsCount | life_game.py:281 | A "shift right" pass keeps the number of live cells. |
| Recenter.FirstToBackKeepsCount | life_game.py:287 | A "shift left" pass keeps the number of live cells. |
| Recenter.ColumnLastToFrontKeepsCount | life_game.py:294 | Moving a column's last cell to its front keeps its number of live cells. |
| Recenter.ColumnFirstToBackKeepsCount | life_game.py:301 | Moving a column's first cell to its back keeps its number of live cells. |
| SeedScan.ScanChars | life_game.py:137-143 | The inner loop over one line's characters. `SeedScan.ScanCharsSpec` and `SeedScan.ScanCharsError` state what it marks and how it stops. |
| SeedScan.ScanLines | life_game.py:131-145 | The outer loop over the lines. `SeedScan.ScanLinesError`, `SeedScan.ScanLinesPrefix` and `SeedScan.ScanSeedSpec` state what it marks and how it stops. |
| SeedScan.RowThen | life_game.py:137-145 | An error in a pattern row ends the scan with the marks made so far, since the exception leaves the loop. Otherwise the row's marks join those of the lines after it. |
| SeedScan.ScanSeed | life_game.py:131-145 | The whole file, from row 0. `SeedScan.ScanSeedSpec` states what it marks and how it stops. |
| SeedScan.ScanCharsSpec | life_game.py:137-143 | Scanning one pattern line marks only the `O`s of the line, and marks all of them when it stops without error. It stops without error exactly when every character passes the width test and every `O` lies on the table. On an error it stops at the first character that does not fit, having marked exactly the `O`s before it. |
| SeedScan.ScanCharsError | life_game.py:137-143 | A line scan started at a column that can pass the width test stops with one of two errors. A width error names column `xscale + 1`. An index error comes from an `O` that passed the width test but lies in column `xscale` or row `yscale`. |
| SeedScan.ScanLinesError | life_game.py:131-145 | A scan started at a row counter that can pass the height test stops with one of three errors. A width error names `xscale + 1`, a height error names `yscale + 1`. An index error comes from an empty line or from an `O` off the table in a pattern row. |
| SeedScan.ScanLinesPrefix | life_game.py:131-145 | When the first part of a file scans without error, scanning the whole file gives the first part's cells plus the scan of the rest. The rest's row counter starts after the first part's pattern rows. |
| SeedScan.ScanLinesStops | life_game.py:131-145 | A scan that ends in an error stops at some line j and character n. The lines before j fit. Line j is empty, or a pattern row past the height test, or a row whose first n characters fit and whose n-th does not. The marked cells are exactly the `O`s of the pattern rows before line j plus the `O`s of line j before column n. |
| SeedScan.ScanSeedSpec | life_game.py:131-145 | Scanning succeeds exactly when no line is empty and every pattern row passes the height and width tests with its `O`s on the table. The cells marked are always among the pattern's cells (the `O` at position i of the k-th non-comment line gives cell (i, k)), and on success they are all of them. All marked cells lie on the table. A width error names `xscale + 1` and a height error `yscale + 1`. An index error comes from an empty line or an `O` in column `xscale` or row `yscale`. On an error the scan stops at the first line that does not fit and at the first failing character of that line. The cells marked are then exactly the `O`s of the pattern rows before that line plus the `O`s of that line before that character. |
| SeedScan.CommentSkipped | life_game.py:132-133 | Removing a leading line that starts with `!` does not change whether the pattern fits at the same row counter, so a comment line neither counts as a row nor advances the row counter. |
| SeedScan.OInLastColumnPlusOneIndexesPastTable | life_game.py:137-141 | On a 2 x 2 table an `O` in column 2 passes the `>` width test and raises the index error, and the cell marked before it stays marked. |
| SeedScan.TerminatorPastLastColumnTooWide | life_game.py:137-139 | On a 2 x 2 table a three-character row fails the width test at its line terminator, column 3, after marking its `O`. |
| SeedScan.LastRowPlusOneIndexesPastTable | life_game.py:134-142 | On a 2 x 1 table a row read at row counter 1, equal to `yscale`, passes the `>` height test. Its `O` raises the index error before the terminator can fail the width test, and the first row's cell stays marked. |
| SeedScan.MarkedSpec | life_game.py:140-141 | Seeding only sets current-generation flags to alive. A cell is alive afterwards exactly when it was alive before or was marked. Next-alive flags and streaks are kept. |
| SeedScan.MarkedKeepsUnprepared | life_game.py:140-141 | Seeding a table whose next-alive flags are clear and whose streaks are zero keeps them so. |
| SeedScan.DefaultRowSize | life_game.py:117-118 | Helper for the default seed's count: the first n cells of row 50 are n distinct cells. |
| SeedScan.DefaultSeed | life_game.py:115-118 | The default seed's marks and error for a table of the given size. `SeedScan.DefaultSeedSpec` states them. |
| SeedScan.DefaultSeedSpec | life_game.py:115-118 | The default seed succeeds exactly on a table of at least 20 columns and 51 rows, and otherwise raises the index error. It marks exactly the cells (i, 50) with i < 20 and i < xscale, and none when row 50 does not exist. |
| SeedScan.Seeding | life_game.py:107-113 | The default seed without a seed file, otherwise the scan of the file's lines. `LifeGame.GameTable.InitConfiguration` applies it to the table. |
| LifeGame.Blank | life_game.py:59-62 | A freshly built table has `xscale` columns of `yscale` cells, all dead, with clear next-alive flags and zero streaks. |
| LifeGame.ShiftUp | life_game.py:293-294 | One "shift up" pass over all columns gives the one-step row rotation and keeps the number of live cells. |
| LifeGame.ShiftDown | life_game.py:300-301 | One "shift down" pass over all columns gives the one-step row rotation the other way and keeps the number of live cells. |
| LifeGame.ShiftRightLoop | life_game.py:277-281 | The "shift right" loop makes exactly `Passes(xscale - x_max - x_min)` passes. It leaves the table as that many passes do, moves both bounds right by that many and keeps the live count. |
| LifeGame.ShiftLeftLoop | life_game.py:283-287 | The "shift left" loop makes exactly `Passes(x_min + x_max - xscale)` passes. It leaves the table as that many passes do, moves both bounds left by that many and keeps the live count. |
| LifeGame.ShiftUpLoop | life_game.py:289-294 | The "shift up" loop makes exactly `Passes(yscale - y_max - y_min)` passes. It leaves the table as that many passes do, moves both bounds down the rows by that many and keeps the live count. |
| LifeGame.ShiftDownLoop | life_game.py:296-301 | The "shift down" loop makes exactly `Passes(y_min + y_max - yscale)` passes. It leaves the table as that many passes do, moves both bounds up the rows by that many and keeps the live count. |
| LifeGame.CenterColumns | life_game.py:277-287 | The column loops give the table as `right` "shift right" passes then `left` "shift left" passes leave it. From the bounds found, `right = Passes(xscale - x_max - x_min)` and `left = Passes(x_min + x_max - xscale)`, so at most one is non-zero. They keep the live count and do not rotate an all-dead table. Otherwise the column bounds stay on the table and end with margins differing by at most one. |
| LifeGame.CenterRows | life_game.py:289-301 | The row loops obey the same contract as the column loops, for the rows of every column: `up = Passes(yscale - y_max - y_min)` and `down = Passes(y_min + y_max - yscale)`. |
| LifeGame.LiveBounds | life_game.py:258-275 | The bounds search returns the sentinels (xscale, 0, yscale, 0) on an all-dead table. Otherwise it returns the tight bounding box of the live cells. |
| LifeGame.TakeIn | life_game.py:267-275 | At a live cell the search's knowledge extends one cell further: the bounds enclose every live cell visited, the first live cell replaces the sentinels, and each side of the box still touches a live cell. |
| LifeGame.CenteredLive | life_game.py:277-301 | The recentred table carries the live pattern, shifted by (Dx, Dy), without wrap-around. |
| LifeGame.CenteredBox | life_game.py:277-301 | The recentred table's tight bounding box is the original one shifted by (Dx, Dy). |
| LifeGame.CenteredMoved | life_game.py:277-301 | Loop counts that keep the bounding box on the table move the pattern and its tight bounding box by (Dx, Dy), without wrap-around. |
| LifeGame.Center | life_game.py:255-301 | Recentering is the four-loop rotation with the pass counts of the loops above, taken from the bounds found, so at most one loop per axis runs. It keeps the live count. An all-dead table is left as it is. Otherwise the pattern is translated without wrap-around and its new bounding box stays on the table with balanced margins on both axes. |
| LifeGame.BalancedTableStays | life_game.py:255-301 | On a table whose tight bounding box is already balanced, the box the bounds search finds gives zero passes to all four loops. So recentering a recentred table changes nothing. |
| LifeGame.GameTable.constructor | life_game.py:56-62 | The new table has `xscale` columns of `yscale` fresh cells and a zeroed intensity array. |
| LifeGame.GameTable.PrepareGeneration | life_game.py:178-195 | The in-place prepare pass yields the rule applied to the pre-pass snapshot of the grid. |
| LifeGame.GameTable.PrepareColumn | life_game.py:181-195 | The inner loop prepares every cell of one column from the unchanged current states and leaves the other columns as they were. |
| LifeGame.GameTable.AdvanceGeneration | life_game.py:235-251 | Advancing prepares then commits: the table becomes the tick of the old table, and the intensity array holds the saturated streak of every cell. |
| LifeGame.GameTable.CommitColumn | life_game.py:240-251 | The inner loop commits every cell of one column and writes its intensity. No other column of the table or of the intensity array changes. |
| LifeGame.GameTable.DefaultConfiguration | life_game.py:115-118 | The default seed marks the cells of the default scan and changes nothing else, returning its error. |
| LifeGame.GameTable.ParseConfiguration | life_game.py:128-145 | Scanning the seed lines marks exactly the cells of the scan, keeping earlier marks on error, and returns the scan's error. |
| LifeGame.GameTable.InitConfiguration | life_game.py:107-113 | Without a seed file the default seed is used, otherwise the file's lines are scanned. |
| LifeGame.GameTable.CenterOnAliveCells | life_game.py:255-301 | The contract of `Center`, pass counts included, applied to the table's own cells. |
| LifeGame.GameTable.Start | life_game.py:64-67 | On a seeded table, recentering has the pass counts, balance and translation of `Center`. Then prepare and advance leave Conway's next generation of the recentred grid, every live cell at streak 2, and the intensity array shows the streaks. |
| LifeGame.GameTable.StartIfSeeded | life_game.py:63-67 | After seeding: on an error the table stays as seeding left it, since the exception leaves the constructor. Otherwise the table goes on as in `Start`. |
| LifeGame.Setup | life_game.py:48-67 | Building and seeding marks exactly the seed's cells on a blank table. On a seeding error the table is left as seeding left it. Otherwise recentering makes the passes `Passes` gives for the seed's bounding box, at most one per axis, and balances the box. The table then holds Conway's next generation of the recentred seed, every live cell has streak 2, and the intensity array shows the streaks. |

## Left out

- Graphics detection and setup (life_game.py:11-33, 70-105): foreign library calls. `xscale` and `yscale` are parameters.
- Drawing (life_game.py:147-176) and the redraw at the end of `advance_generation` (life_game.py:253): output through external libraries.
- Drawing at the end of the constructor (life_game.py:68): output through external libraries.
- Opening the seed file and the message printed when that fails (life_game.py:122-126): file I/O. The seed is given as its lines, and a file that cannot be opened is the `None` seed.
- `run`, `teardown` and `main` (life_game.py:309-349): the event loop, sleeping, event polling and terminal cleanup.
- `Numeric.zeros` (life_game.py:56) is modelled only as a zero-initialised `array2<int>`.
- Sharing of `Cell` objects and column lists: the source mutates them in place, the model replaces values in the `cells` field. No two positions of the source's table share an object, so nothing observable is lost.
- On a seeding error the source's constructor raises before recentering, so `Setup` says nothing about its ghost `shifts` and `box` in that case.
