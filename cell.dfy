/** One square of the Game-of-Life table and the per-cell parts of the
    simulation: the life rule as `_prepare_generation` applies it, the
    commit of `advance_generation`, and the streak-to-intensity mapping. */
module LifeCell {

  /** A cell (life_game.py `Cell`): alive in the current generation, alive in
      the next one, and the number of consecutive generations it has been
      computed alive (`generation_cnt`, never negative in the source). */
  datatype Cell = Cell(aliveCurrGen: bool, aliveNextGen: bool, generationCnt: nat)

  /** A freshly constructed cell: dead in both generations, streak 0. */
  const NewCell: Cell := Cell(false, false, 0)

  /** Conway's rule B3/S23, stated independently of the source: a cell is
      alive next generation iff it has exactly three live neighbours, or it is
      alive now and has exactly two. */
  predicate Life(alive: bool, neighbors: nat) {
    neighbors == 3 || (alive && neighbors == 2)
  }

  /** What one iteration of `_prepare_generation` does to the cell it visits,
      given that cell's neighbour count. A dead cell whose count is not 3 keeps
      whatever `aliveNextGen` it had. */
  function PrepareCell(c: Cell, cnt: nat): (r: Cell)
    ensures r.aliveCurrGen == c.aliveCurrGen
    ensures r.aliveNextGen == (Life(c.aliveCurrGen, cnt) || (!c.aliveCurrGen && c.aliveNextGen))
    ensures r.aliveNextGen ==> r.generationCnt == c.generationCnt + 1
    ensures r.generationCnt == 0 <==> !r.aliveNextGen
  {
    var next :=
      if c.aliveCurrGen then
        if cnt < 2 || cnt > 3 then false else true
      else if cnt == 3 then true
      else c.aliveNextGen;
    c.(aliveNextGen := next,
       generationCnt := if next then c.generationCnt + 1 else 0)
  }

  /** The per-cell assignment of the commit pass of `advance_generation`. */
  function CommitCell(c: Cell): Cell {
    c.(aliveCurrGen := c.aliveNextGen)
  }

  /** The intensity `advance_generation` writes into `px_arr` for a streak:
      the streak itself, saturated at 4 (that is, min(streak, 4)). */
  function Intensity(generationCnt: nat): (color: nat)
    ensures color <= 4 && color <= generationCnt
    ensures color == generationCnt || color == 4
  {
    if generationCnt >= 4 then 4 else generationCnt
  }

  /** The rule applied by `PrepareCell` is Conway's rule whenever a dead cell
      does not enter with a stale `aliveNextGen`. */
  lemma PrepareCellIsLife(c: Cell, cnt: nat)
    requires c.aliveCurrGen || !c.aliveNextGen
    ensures PrepareCell(c, cnt).aliveNextGen == Life(c.aliveCurrGen, cnt)
  {
  }

  /** Preparing a cell twice with the same count leaves `aliveNextGen` as the
      first preparation set it and counts the streak twice. */
  lemma PrepareCellTwice(c: Cell, cnt: nat)
    ensures PrepareCell(PrepareCell(c, cnt), cnt).aliveCurrGen == c.aliveCurrGen
    ensures PrepareCell(PrepareCell(c, cnt), cnt).aliveNextGen == PrepareCell(c, cnt).aliveNextGen
    ensures PrepareCell(PrepareCell(c, cnt), cnt).generationCnt ==
            (if PrepareCell(c, cnt).aliveNextGen then c.generationCnt + 2 else 0)
  {
  }
}
