/** Small boards whose fate is known: the still life "block", which stops a run
 *  on its first tick, and the oscillator "blinker", which stops it on its
 *  second, by the period-2 test. All of them are rectangles of live cells. */
module Patterns {
  import opened Grid
  import opened Simulation

  // ---------------------------------------------------------------------------
  // Rectangles of live cells
  // ---------------------------------------------------------------------------

  /** `v` lies in `lo..hi`. */
  predicate Band(v: int, lo: int, hi: int)
  {
    lo <= v <= hi
  }

  /** A board alive exactly on the rows `top..bottom` crossed with the columns
   *  `left..right`. */
  function Rect(rows: nat, cols: nat, top: int, bottom: int, left: int, right: int): seq<Byte>
  {
    seq(rows * cols, i => if cols > 0 && Band(i / cols, top, bottom) && Band(i % cols, left, right) then 1 else 0)
  }

  /** How many of the three torus lines `v - 1`, `v`, `v + 1` of a torus `n`
   *  long fall into `lo..hi`. */
  function Hits(n: nat, lo: int, hi: int, v: int): int
    requires n > 0
  {
    (if Band((v - 1) % n, lo, hi) then 1 else 0) +
    (if Band(v % n, lo, hi) then 1 else 0) +
    (if Band((v + 1) % n, lo, hi) then 1 else 0)
  }

  /** A rectangle, read on the torus, is alive where its row band meets its
   *  column band. */
  lemma AtRect(rows: nat, cols: nat, top: int, bottom: int, left: int, right: int, r: int, c: int)
    requires rows > 0 && cols > 0
    ensures var g := Rect(rows, cols, top, bottom, left, right);
      Shaped(g, rows, cols) &&
      At(g, rows, cols, r, c) == if Band(r % rows, top, bottom) && Band(c % cols, left, right) then 1 else 0
  {
    IdxDivMod(rows, cols, r % rows, c % cols);
  }

  /** The count of live cells in the 3 x 3 block around (y, x) of a rectangle:
   *  each of the three rows that lies in the row band adds the columns of the
   *  block that lie in the column band. The torus count leaves out the cell. */
  lemma RectCount(rows: nat, cols: nat, top: int, bottom: int, left: int, right: int, y: int, x: int)
    requires rows > 0 && cols > 0
    ensures var g := Rect(rows, cols, top, bottom, left, right);
      var h := Hits(cols, left, right, x);
      Shaped(g, rows, cols) &&
      TorusCount(g, rows, cols, y, x) + At(g, rows, cols, y, x) ==
        (if Band((y - 1) % rows, top, bottom) then h else 0) +
        (if Band(y % rows, top, bottom) then h else 0) +
        (if Band((y + 1) % rows, top, bottom) then h else 0)
  {
    AtRect(rows, cols, top, bottom, left, right, y - 1, x - 1);
    AtRect(rows, cols, top, bottom, left, right, y - 1, x);
    AtRect(rows, cols, top, bottom, left, right, y - 1, x + 1);
    AtRect(rows, cols, top, bottom, left, right, y, x - 1);
    AtRect(rows, cols, top, bottom, left, right, y, x);
    AtRect(rows, cols, top, bottom, left, right, y, x + 1);
    AtRect(rows, cols, top, bottom, left, right, y + 1, x - 1);
    AtRect(rows, cols, top, bottom, left, right, y + 1, x);
    AtRect(rows, cols, top, bottom, left, right, y + 1, x + 1);
  }

  // ---------------------------------------------------------------------------
  // The block
  // ---------------------------------------------------------------------------

  /** A board holding the 2 x 2 square of rows 1-2 and columns 1-2. */
  function Block(rows: nat, cols: nat): seq<Byte>
  {
    Rect(rows, cols, 1, 2, 1, 2)
  }

  /** On a torus at least 4 lines long, the three lines around `v` meet the band
   *  1..2 twice when `v` is in the band, once when `v` is next to it, and not
   *  at all otherwise. */
  lemma BlockHits(n: nat, v: int)
    requires n >= 4 && 0 <= v < n
    ensures v % n == v
    ensures Hits(n, 1, 2, v) == if Band(v, 1, 2) then 2 else if v == 0 || v == 3 then 1 else 0
  {
    WrapOnTorus(v, -1, n);
    WrapOnTorus(v, 0, n);
    WrapOnTorus(v, 1, n);
  }

  /** Every cell of the block keeps its state: a live cell has three live
   *  neighbours, a dead one at most two. */
  lemma BlockCellKept(rows: nat, cols: nat, y: int, x: int)
    requires rows >= 4 && cols >= 4 && OnBoard(rows, cols, y, x)
    ensures var g := Block(rows, cols);
      Shaped(g, rows, cols) &&
      g[Idx(rows, cols, y, x)] == Rule(At(g, rows, cols, y, x), TorusCount(g, rows, cols, y, x))
  {
    RectCount(rows, cols, 1, 2, 1, 2, y, x);
    AtRect(rows, cols, 1, 2, 1, 2, y, x);
    AtOnBoard(Block(rows, cols), rows, cols, y, x);
    BlockHits(rows, y);
    BlockHits(cols, x);
  }

  /** The block is a still life on any board at least 4 x 4: its next
   *  generation is itself. */
  lemma BlockIsStill(rows: nat, cols: nat)
    requires rows >= 4 && cols >= 4
    ensures Shaped(Block(rows, cols), rows, cols) && NextGen(Block(rows, cols), rows, cols) == Block(rows, cols)
  {
    var g := Block(rows, cols);
    BlockCellKept(rows, cols, 0, 0);
    forall y, x | OnBoard(rows, cols, y, x)
      ensures g[Idx(rows, cols, y, x)] == Rule(At(g, rows, cols, y, x), TorusCount(g, rows, cols, y, x))
    {
      BlockCellKept(rows, cols, y, x);
    }
    NextGenFromCells(g, g, rows, cols);
  }

  // ---------------------------------------------------------------------------
  // The blinker
  // ---------------------------------------------------------------------------

  /** A board holding three live cells side by side: row 2, columns 1-3. */
  function BlinkerRow(rows: nat, cols: nat): seq<Byte>
  {
    Rect(rows, cols, 2, 2, 1, 3)
  }

  /** The same three cells stood on end: rows 1-3, column 2. */
  function BlinkerColumn(rows: nat, cols: nat): seq<Byte>
  {
    Rect(rows, cols, 1, 3, 2, 2)
  }

  /** On a torus at least 5 lines long, the three lines around `v` meet line 2
   *  once exactly when `v` is one of the lines 1..3. */
  lemma NarrowHits(n: nat, v: int)
    requires n >= 5 && 0 <= v < n
    ensures v % n == v
    ensures Hits(n, 2, 2, v) == if Band(v, 1, 3) then 1 else 0
  {
    WrapOnTorus(v, -1, n);
    WrapOnTorus(v, 0, n);
    WrapOnTorus(v, 1, n);
  }

  /** On a torus at least 5 lines long, the three lines around `v` meet the
   *  lines 1..3 three times around line 2, twice around lines 1 and 3, once
   *  around lines 0 and 4, and not at all elsewhere. */
  lemma WideHits(n: nat, v: int)
    requires n >= 5 && 0 <= v < n
    ensures v % n == v
    ensures Hits(n, 1, 3, v) == if v == 2 then 3 else if Band(v, 1, 3) then 2 else if v == 0 || v == 4 then 1 else 0
  {
    WrapOnTorus(v, -1, n);
    WrapOnTorus(v, 0, n);
    WrapOnTorus(v, 1, n);
  }

  /** Each cell of the column is the rule applied to that cell of the row and
   *  its neighbours: the two end cells of the row die with one neighbour, the
   *  middle one survives with two, the cells above and below it are born with
   *  three, and no other cell has three. */
  lemma BlinkerRowCell(rows: nat, cols: nat, y: int, x: int)
    requires rows >= 5 && cols >= 5 && OnBoard(rows, cols, y, x)
    ensures var g, h := BlinkerRow(rows, cols), BlinkerColumn(rows, cols);
      Shaped(g, rows, cols) && Shaped(h, rows, cols) &&
      h[Idx(rows, cols, y, x)] == Rule(At(g, rows, cols, y, x), TorusCount(g, rows, cols, y, x))
  {
    RectCount(rows, cols, 2, 2, 1, 3, y, x);
    AtRect(rows, cols, 2, 2, 1, 3, y, x);
    AtRect(rows, cols, 1, 3, 2, 2, y, x);
    AtOnBoard(BlinkerColumn(rows, cols), rows, cols, y, x);
    NarrowHits(rows, y);
    WideHits(cols, x);
  }

  /** Each cell of the row is the rule applied to that cell of the column and
   *  its neighbours. */
  lemma BlinkerColumnCell(rows: nat, cols: nat, y: int, x: int)
    requires rows >= 5 && cols >= 5 && OnBoard(rows, cols, y, x)
    ensures var g, h := BlinkerColumn(rows, cols), BlinkerRow(rows, cols);
      Shaped(g, rows, cols) && Shaped(h, rows, cols) &&
      h[Idx(rows, cols, y, x)] == Rule(At(g, rows, cols, y, x), TorusCount(g, rows, cols, y, x))
  {
    RectCount(rows, cols, 1, 3, 2, 2, y, x);
    AtRect(rows, cols, 1, 3, 2, 2, y, x);
    AtRect(rows, cols, 2, 2, 1, 3, y, x);
    AtOnBoard(BlinkerRow(rows, cols), rows, cols, y, x);
    WideHits(rows, y);
    NarrowHits(cols, x);
  }

  /** On any board at least 5 x 5, the row of three turns into the column of
   *  three. */
  lemma BlinkerRowTurns(rows: nat, cols: nat)
    requires rows >= 5 && cols >= 5
    ensures var g := BlinkerRow(rows, cols);
      Shaped(g, rows, cols) && NextGen(g, rows, cols) == BlinkerColumn(rows, cols)
  {
    var g, h := BlinkerRow(rows, cols), BlinkerColumn(rows, cols);
    BlinkerRowCell(rows, cols, 0, 0);
    forall y, x | OnBoard(rows, cols, y, x)
      ensures h[Idx(rows, cols, y, x)] == Rule(At(g, rows, cols, y, x), TorusCount(g, rows, cols, y, x))
    {
      BlinkerRowCell(rows, cols, y, x);
    }
    NextGenFromCells(g, h, rows, cols);
  }

  /** On any board at least 5 x 5, the column of three turns back into the row
   *  of three. */
  lemma BlinkerColumnTurns(rows: nat, cols: nat)
    requires rows >= 5 && cols >= 5
    ensures var g := BlinkerColumn(rows, cols);
      Shaped(g, rows, cols) && NextGen(g, rows, cols) == BlinkerRow(rows, cols)
  {
    var g, h := BlinkerColumn(rows, cols), BlinkerRow(rows, cols);
    BlinkerColumnCell(rows, cols, 0, 0);
    forall y, x | OnBoard(rows, cols, y, x)
      ensures h[Idx(rows, cols, y, x)] == Rule(At(g, rows, cols, y, x), TorusCount(g, rows, cols, y, x))
    {
      BlinkerColumnCell(rows, cols, y, x);
    }
    NextGenFromCells(g, h, rows, cols);
  }

  /** The two phases of the blinker differ. */
  lemma BlinkerPhasesDiffer(rows: nat, cols: nat)
    requires rows >= 5 && cols >= 5
    ensures BlinkerRow(rows, cols) != BlinkerColumn(rows, cols)
  {
    AtRect(rows, cols, 2, 2, 1, 3, 2, 1);
    AtRect(rows, cols, 1, 3, 2, 2, 2, 1);
    AtOnBoard(BlinkerRow(rows, cols), rows, cols, 2, 1);
    AtOnBoard(BlinkerColumn(rows, cols), rows, cols, 2, 1);
    NarrowHits(rows, 2);
    NarrowHits(cols, 1);
  }

  // ---------------------------------------------------------------------------
  // Runs started on these boards
  // ---------------------------------------------------------------------------

  /** A game whose drawn board is the block goes on after `randInit` and stops
   *  on its first tick, by the fixed-point test. */
  lemma BlockStopsOnFirstTick(game: Game)
    requires game.Started() && game.rows >= 4 && game.cols >= 4 && game.init == Block(game.rows, game.cols)
    ensures game.stepCount == 0 ==> !game.gameOver
    ensures game.stepCount == 1 ==>
      game.gameOver && game.g[..] == game.init && game.g[..] == game.prevGrid[..]
  {
    BlockIsStill(game.rows, game.cols);
    assert game.step(game.init) == game.init;
    StillRunStops(game.step, game.init, game.aliveHistory, game.g[..],
                  LagOf(game.prevGrid), LagOf(game.prev2Grid), game.gameOver);
  }

  /** A game whose drawn board is the row of three goes on after its first
   *  tick, showing the column, and stops on its second, back at the row: the
   *  board differs from `prevGrid` and equals `prev2Grid`. */
  lemma BlinkerStopsOnSecondTick(game: Game)
    requires game.Started() && game.rows >= 5 && game.cols >= 5 && game.init == BlinkerRow(game.rows, game.cols)
    ensures game.stepCount == 1 ==> !game.gameOver && game.g[..] == BlinkerColumn(game.rows, game.cols)
    ensures game.stepCount == 2 ==>
      game.gameOver && game.g[..] == game.init &&
      game.g[..] != game.prevGrid[..] && game.prev2Grid != null && game.g[..] == game.prev2Grid[..]
  {
    var column := BlinkerColumn(game.rows, game.cols);
    BlinkerRowTurns(game.rows, game.cols);
    BlinkerColumnTurns(game.rows, game.cols);
    BlinkerPhasesDiffer(game.rows, game.cols);
    assert game.step(game.init) == column;
    assert game.step(column) == game.init;
    PeriodTwoRunStops(game.step, game.init, game.aliveHistory, game.g[..],
                      LagOf(game.prevGrid), LagOf(game.prev2Grid), game.gameOver);
  }
}
