/** The board of the simulation: a flat byte buffer of `rows * cols` cells read
 *  as a torus, the B3/S23 transition rule over it, and the helpers around it
 *  (`idx`, `arraysEqual`, the population sum and the generation step). */
module Grid {

  /** One element of the `Uint8Array` that holds the board. */
  type Byte = b: int | 0 <= b < 256

  // ---------------------------------------------------------------------------
  // Arithmetic facts the solver does not find on its own
  // ---------------------------------------------------------------------------

  lemma MulSign(k: int, n: int)
    requires n > 0
    ensures k >= 1 ==> k * n >= n
    ensures k <= -1 ==> k * n <= -n
  {
  }

  lemma MulMono(a: int, b: int, c: int)
    requires 0 <= a <= b && 0 <= c
    ensures a * c <= b * c
  {
  }

  /** Quotient and remainder are determined by `a == q * n + r` with `0 <= r < n`. */
  lemma DivModUnique(a: int, n: int, q: int, r: int)
    requires n > 0 && 0 <= r < n && a == q * n + r
    ensures a / n == q && a % n == r
  {
    var q0, r0 := a / n, a % n;
    assert (q - q0) * n == r0 - r;
    MulSign(q - q0, n);
  }

  // ---------------------------------------------------------------------------
  // Shape of the board and the idx function
  // ---------------------------------------------------------------------------

  /** A buffer of length `rows * cols` for a board with at least one cell. */
  predicate Shaped(g: seq<Byte>, rows: nat, cols: nat)
  {
    rows > 0 && cols > 0 && |g| == rows * cols
  }

  /** (y, x) is a cell of the board. */
  predicate OnBoard(rows: nat, cols: nat, y: int, x: int)
  {
    0 <= y < rows && 0 <= x < cols
  }

  /** Every cell holds exactly 0 (dead) or 1 (alive). */
  predicate IsBinary(s: seq<Byte>)
  {
    forall i :: 0 <= i < |s| ==> s[i] <= 1
  }

  /** `idx(y, x)`: the row-major slot of cell (y, x) on a board `cols` wide;
   *  every cell of the board has a slot inside the buffer. */
  function Idx(rows: nat, cols: nat, y: int, x: int): (i: int)
    ensures OnBoard(rows, cols, y, x) ==> 0 <= i < rows * cols
  {
    if OnBoard(rows, cols, y, x) then
      MulMono(0, y, cols);
      MulMono(y + 1, rows, cols);
      assert (y + 1) * cols == y * cols + cols;
      y * cols + x
    else
      y * cols + x
  }

  /** Row and column are recovered from the slot: `idx` has an inverse. */
  lemma IdxDivMod(rows: nat, cols: nat, y: int, x: int)
    requires 0 <= x < cols
    ensures Idx(rows, cols, y, x) / cols == y && Idx(rows, cols, y, x) % cols == x
  {
    DivModUnique(Idx(rows, cols, y, x), cols, y, x);
  }

  /** Two cells share a slot iff they are the same cell. */
  lemma IdxInjective(rows: nat, cols: nat, y1: int, x1: int, y2: int, x2: int)
    requires 0 <= x1 < cols && 0 <= x2 < cols
    ensures Idx(rows, cols, y1, x1) == Idx(rows, cols, y2, x2) <==> y1 == y2 && x1 == x2
  {
    IdxDivMod(rows, cols, y1, x1);
    IdxDivMod(rows, cols, y2, x2);
  }

  /** Every slot of the buffer is the slot of the on-board cell (i / cols, i % cols). */
  lemma SlotCell(i: int, rows: nat, cols: nat)
    requires cols > 0 && 0 <= i < rows * cols
    ensures 0 <= i / cols < rows && 0 <= i % cols < cols
    ensures Idx(rows, cols, i / cols, i % cols) == i
  {
    var q := i / cols;
    assert i == q * cols + i % cols;
    MulSign(q, cols);
    if q >= rows {
      MulMono(rows, q, cols);
    }
  }

  // ---------------------------------------------------------------------------
  // Toroidal wrap-around
  // ---------------------------------------------------------------------------

  /** JavaScript's `%`: the remainder of the quotient truncated toward zero. */
  function JsRem(a: int, n: int): int
    requires n > 0
  {
    if a >= 0 then a % n else -((-a) % n)
  }

  /** `JsRem` is a remainder: it differs from `a` by a multiple of `n`, is
   *  smaller than `n` in size, and takes the sign of `a`. */
  lemma JsRemTruncates(a: int, n: int)
    requires n > 0
    ensures var r := JsRem(a, n);
      -n < r < n && (a > 0 ==> r >= 0) && (a < 0 ==> r <= 0) && (a - r) % n == 0
  {
    if a >= 0 {
      DivModUnique(a - a % n, n, a / n, 0);
    } else {
      DivModUnique(a + (-a) % n, n, -((-a) / n), 0);
    }
  }

  /** The wrapped coordinate `(v + d + n) % n` of `step`. */
  function Wrap(v: int, d: int, n: int): (w: int)
    requires n > 0
    ensures v + d + n >= 0 ==> 0 <= w < n
  {
    JsRem(v + d + n, n)
  }

  /** On the inputs `step` gives it, `Wrap` is the torus coordinate `(v + d) mod n`:
   *  stepping off one edge lands on the opposite one. */
  lemma WrapOnTorus(v: int, d: int, n: int)
    requires n > 0 && 0 <= v < n && -1 <= d <= 1
    ensures Wrap(v, d, n) == (v + d) % n
    ensures Wrap(v, d, n) == if v + d < 0 then n - 1 else if v + d >= n then 0 else v + d
  {
    if v + d < 0 {
      DivModUnique(v + d + n, n, 0, n - 1);
      DivModUnique(v + d, n, -1, n - 1);
    } else if v + d >= n {
      DivModUnique(v + d + n, n, 2, 0);
      DivModUnique(v + d, n, 1, 0);
    } else {
      DivModUnique(v + d + n, n, 1, v + d);
      DivModUnique(v + d, n, 0, v + d);
    }
  }

  /** The board read as a torus: any row and column, taken modulo the board's size. */
  function At(g: seq<Byte>, rows: nat, cols: nat, r: int, c: int): Byte
    requires Shaped(g, rows, cols)
  {
    g[Idx(rows, cols, r % rows, c % cols)]
  }

  /** A cell on the board is read as it is. */
  lemma AtOnBoard(g: seq<Byte>, rows: nat, cols: nat, y: int, x: int)
    requires Shaped(g, rows, cols) && OnBoard(rows, cols, y, x)
    ensures At(g, rows, cols, y, x) == g[Idx(rows, cols, y, x)]
  {
    DivModUnique(y, rows, 0, y);
    DivModUnique(x, cols, 0, x);
  }

  /** The neighbour count as the game defines it: the eight cells around (y, x)
   *  on the torus, added up. */
  function TorusCount(g: seq<Byte>, rows: nat, cols: nat, y: int, x: int): int
    requires Shaped(g, rows, cols)
  {
    At(g, rows, cols, y - 1, x - 1) + At(g, rows, cols, y - 1, x) + At(g, rows, cols, y - 1, x + 1) +
    At(g, rows, cols, y, x - 1) + At(g, rows, cols, y, x + 1) +
    At(g, rows, cols, y + 1, x - 1) + At(g, rows, cols, y + 1, x) + At(g, rows, cols, y + 1, x + 1)
  }

  /** The neighbour of (y, x) at offset (dy, dx) on the torus. */
  function Neighbour(g: seq<Byte>, rows: nat, cols: nat, y: int, x: int, dy: int, dx: int): Byte
    requires Shaped(g, rows, cols)
  {
    At(g, rows, cols, y + dy, x + dx)
  }

  // ---------------------------------------------------------------------------
  // Neighbour count
  // ---------------------------------------------------------------------------

  /** What the visit of offset (dy, dx) around (y, x) adds to the count: the
   *  wrapped neighbour's byte, or nothing for the centre, which `step` skips. */
  function Visit(g: seq<Byte>, rows: nat, cols: nat, y: int, x: int, dy: int, dx: int): int
    requires Shaped(g, rows, cols) && OnBoard(rows, cols, y, x) && -1 <= dy <= 1 && -1 <= dx <= 1
  {
    if dy == 0 && dx == 0 then 0
    else g[Idx(rows, cols, Wrap(y, dy, rows), Wrap(x, dx, cols))]
  }

  /** The visits of row offset dy with column offsets from -1 up to dxEnd - 1,
   *  in the order of `step`'s inner loop. */
  function RowCount(g: seq<Byte>, rows: nat, cols: nat, y: int, x: int, dy: int, dxEnd: int): int
    requires Shaped(g, rows, cols) && OnBoard(rows, cols, y, x) && -1 <= dy <= 1 && -1 <= dxEnd <= 2
    decreases dxEnd + 1
  {
    if dxEnd == -1 then 0
    else RowCount(g, rows, cols, y, x, dy, dxEnd - 1) + Visit(g, rows, cols, y, x, dy, dxEnd - 1)
  }

  /** The whole rows with offsets from -1 up to dyEnd - 1, in the order of
   *  `step`'s outer loop. */
  function BlockCount(g: seq<Byte>, rows: nat, cols: nat, y: int, x: int, dyEnd: int): int
    requires Shaped(g, rows, cols) && OnBoard(rows, cols, y, x) && -1 <= dyEnd <= 2
    decreases dyEnd + 1
  {
    if dyEnd == -1 then 0
    else BlockCount(g, rows, cols, y, x, dyEnd - 1) + RowCount(g, rows, cols, y, x, dyEnd - 1, 2)
  }

  /** The neighbour count `n` of cell (y, x) that `step` computes: the visits of
   *  the whole block, in loop order. It is never negative, and on a 0/1 board it
   *  is at most 8, as the centre is skipped. */
  function NeighbourCount(g: seq<Byte>, rows: nat, cols: nat, y: int, x: int): (n: int)
    requires Shaped(g, rows, cols) && OnBoard(rows, cols, y, x)
    ensures 0 <= n && (IsBinary(g) ==> n <= 8)
  {
    RowCountAt(g, rows, cols, y, x, -1);
    RowCountAt(g, rows, cols, y, x, 0);
    RowCountAt(g, rows, cols, y, x, 1);
    assert BlockCount(g, rows, cols, y, x, 0) == RowCount(g, rows, cols, y, x, -1, 2);
    BlockCount(g, rows, cols, y, x, 2)
  }

  /** Each visit reads the torus cell at its offset. */
  lemma VisitAt(g: seq<Byte>, rows: nat, cols: nat, y: int, x: int, dy: int, dx: int)
    requires Shaped(g, rows, cols) && OnBoard(rows, cols, y, x) && -1 <= dy <= 1 && -1 <= dx <= 1
    ensures Visit(g, rows, cols, y, x, dy, dx) == if dy == 0 && dx == 0 then 0 else At(g, rows, cols, y + dy, x + dx)
  {
    WrapOnTorus(y, dy, rows);
    WrapOnTorus(x, dx, cols);
  }

  /** A row of the block is the sum of its three torus cells, less the centre. */
  lemma RowCountAt(g: seq<Byte>, rows: nat, cols: nat, y: int, x: int, dy: int)
    requires Shaped(g, rows, cols) && OnBoard(rows, cols, y, x) && -1 <= dy <= 1
    ensures RowCount(g, rows, cols, y, x, dy, 2) ==
      At(g, rows, cols, y + dy, x - 1) + (if dy == 0 then 0 else At(g, rows, cols, y + dy, x)) + At(g, rows, cols, y + dy, x + 1)
  {
    VisitAt(g, rows, cols, y, x, dy, -1);
    VisitAt(g, rows, cols, y, x, dy, 0);
    VisitAt(g, rows, cols, y, x, dy, 1);
    assert RowCount(g, rows, cols, y, x, dy, 0) == Visit(g, rows, cols, y, x, dy, -1);
  }

  /** The count is the sum of exactly the eight cells around (y, x) on the torus. */
  lemma NeighbourCountSumsEight(g: seq<Byte>, rows: nat, cols: nat, y: int, x: int)
    requires Shaped(g, rows, cols) && OnBoard(rows, cols, y, x)
    ensures NeighbourCount(g, rows, cols, y, x) == TorusCount(g, rows, cols, y, x)
  {
    RowCountAt(g, rows, cols, y, x, -1);
    RowCountAt(g, rows, cols, y, x, 0);
    RowCountAt(g, rows, cols, y, x, 1);
    assert BlockCount(g, rows, cols, y, x, 0) == RowCount(g, rows, cols, y, x, -1, 2);
  }

  /** On a board at least 2 x 2, a neighbour of (y, x) does not see a change of
   *  the slot of (y, x). */
  lemma NeighbourUnaffected(g: seq<Byte>, rows: nat, cols: nat, y: int, x: int, dy: int, dx: int, v: Byte)
    requires Shaped(g, rows, cols) && OnBoard(rows, cols, y, x) && rows >= 2 && cols >= 2
    requires -1 <= dy <= 1 && -1 <= dx <= 1 && (dy, dx) != (0, 0)
    ensures var i := Idx(rows, cols, y, x);
      0 <= i < |g| && At(g[i := v], rows, cols, y + dy, x + dx) == At(g, rows, cols, y + dy, x + dx)
  {
    WrapOnTorus(y, dy, rows);
    WrapOnTorus(x, dx, cols);
    IdxInjective(rows, cols, (y + dy) % rows, (x + dx) % cols, y, x);
  }

  /** A row of the block does not see a change of the slot of (y, x). */
  lemma RowIgnoresCentre(g: seq<Byte>, rows: nat, cols: nat, y: int, x: int, dy: int, v: Byte)
    requires Shaped(g, rows, cols) && OnBoard(rows, cols, y, x) && rows >= 2 && cols >= 2 && -1 <= dy <= 1
    ensures var i := Idx(rows, cols, y, x);
      0 <= i < |g| && RowCount(g[i := v], rows, cols, y, x, dy, 2) == RowCount(g, rows, cols, y, x, dy, 2)
  {
    var h := g[Idx(rows, cols, y, x) := v];
    RowCountAt(g, rows, cols, y, x, dy);
    RowCountAt(h, rows, cols, y, x, dy);
    NeighbourUnaffected(g, rows, cols, y, x, dy, -1, v);
    if dy != 0 {
      NeighbourUnaffected(g, rows, cols, y, x, dy, 0, v);
    }
    NeighbourUnaffected(g, rows, cols, y, x, dy, 1, v);
  }

  /** On a board at least 2 x 2 the cell itself is never among its neighbours:
   *  whatever (y, x) holds, its count is the same. */
  lemma NeighbourCountIgnoresCentre(g: seq<Byte>, rows: nat, cols: nat, y: int, x: int, v: Byte)
    requires Shaped(g, rows, cols) && OnBoard(rows, cols, y, x) && rows >= 2 && cols >= 2
    ensures var i := Idx(rows, cols, y, x);
      0 <= i < |g| && NeighbourCount(g[i := v], rows, cols, y, x) == NeighbourCount(g, rows, cols, y, x)
  {
    var h := g[Idx(rows, cols, y, x) := v];
    RowIgnoresCentre(g, rows, cols, y, x, -1, v);
    RowIgnoresCentre(g, rows, cols, y, x, 0, v);
    RowIgnoresCentre(g, rows, cols, y, x, 1, v);
    assert BlockCount(g, rows, cols, y, x, 0) == RowCount(g, rows, cols, y, x, -1, 2);
    assert BlockCount(h, rows, cols, y, x, 0) == RowCount(h, rows, cols, y, x, -1, 2);
  }

  /** A board whose only live cell is (0, 0). */
  function Corner(rows: nat, cols: nat): seq<Byte>
  {
    seq(rows * cols, i => if i == 0 then 1 else 0)
  }

  lemma AtCorner(rows: nat, cols: nat, r: int, c: int)
    requires rows > 0 && cols > 0
    ensures Shaped(Corner(rows, cols), rows, cols)
    ensures At(Corner(rows, cols), rows, cols, r, c) == if r % rows == 0 && c % cols == 0 then 1 else 0
  {
    IdxInjective(rows, cols, r % rows, c % cols, 0, 0);
  }

  /** In any row, the three columns around an edge column hold the live corner
   *  once when the row is row 0 on the torus; the middle one holds it only in
   *  column 0. */
  lemma CornerColumns(rows: nat, cols: nat, r: int, x: int)
    requires rows > 0 && cols >= 3 && (x == 0 || x == cols - 1)
    ensures Shaped(Corner(rows, cols), rows, cols)
    ensures At(Corner(rows, cols), rows, cols, r, x) == if r % rows == 0 && x == 0 then 1 else 0
    ensures At(Corner(rows, cols), rows, cols, r, x - 1) + At(Corner(rows, cols), rows, cols, r, x)
      + At(Corner(rows, cols), rows, cols, r, x + 1) == if r % rows == 0 then 1 else 0
  {
    AtCorner(rows, cols, r, x - 1);
    AtCorner(rows, cols, r, x);
    AtCorner(rows, cols, r, x + 1);
    WrapOnTorus(x, -1, cols);
    WrapOnTorus(x, 0, cols);
    WrapOnTorus(x, 1, cols);
  }

  /** Around a cell on the edges of a board at least 3 x 3 (but not the corner
   *  itself), a row of the block sees the live corner once when it is row 0 on
   *  the torus, and not at all otherwise. */
  lemma CornerRow(rows: nat, cols: nat, y: int, x: int, dy: int)
    requires rows >= 3 && cols >= 3 && -1 <= dy <= 1
    requires (y == 0 || y == rows - 1) && (x == 0 || x == cols - 1) && (y, x) != (0, 0)
    ensures Shaped(Corner(rows, cols), rows, cols)
    ensures RowCount(Corner(rows, cols), rows, cols, y, x, dy, 2) == if (y + dy) % rows == 0 then 1 else 0
  {
    CornerColumns(rows, cols, y + dy, x);
    RowCountAt(Corner(rows, cols), rows, cols, y, x, dy);
    WrapOnTorus(y, 0, rows);
  }

  /** Edges wrap: the live corner (0, 0) is counted exactly once as a neighbour of
   *  each cell it touches across an edge (the last row, the last column and the
   *  opposite corner). */
  lemma CornerSeenAcrossEdges(rows: nat, cols: nat, y: int, x: int)
    requires rows >= 3 && cols >= 3
    requires (y == 0 || y == rows - 1) && (x == 0 || x == cols - 1) && (y, x) != (0, 0)
    ensures Shaped(Corner(rows, cols), rows, cols)
    ensures NeighbourCount(Corner(rows, cols), rows, cols, y, x) == 1
  {
    var g := Corner(rows, cols);
    CornerRow(rows, cols, y, x, -1);
    CornerRow(rows, cols, y, x, 0);
    CornerRow(rows, cols, y, x, 1);
    WrapOnTorus(y, -1, rows);
    WrapOnTorus(y, 0, rows);
    WrapOnTorus(y, 1, rows);
    assert BlockCount(g, rows, cols, y, x, 0) == RowCount(g, rows, cols, y, x, -1, 2);
  }

  // ---------------------------------------------------------------------------
  // The transition rule and the next generation
  // ---------------------------------------------------------------------------

  /** B3/S23 as `step` writes it: a non-zero byte is alive; it stays alive with
   *  2 or 3 neighbours, a dead cell is born with exactly 3, all else is dead. */
  function Rule(a: Byte, n: int): Byte
  {
    if (a != 0 && (n == 2 || n == 3)) || (a == 0 && n == 3) then 1 else 0
  }

  /** The rule put the other way round: three neighbours always give a live
   *  cell, two keep the cell as it is, and any other count gives a dead one. */
  lemma RuleByCount(a: Byte, n: int)
    ensures Rule(a, n) <= 1
    ensures n == 3 ==> Rule(a, n) == 1
    ensures n == 2 ==> (Rule(a, n) == 1 <==> a != 0)
    ensures n != 2 && n != 3 ==> Rule(a, n) == 0
  {
  }

  /** The new byte for slot i, read from the old board only. */
  function NextCell(g: seq<Byte>, rows: nat, cols: nat, i: int): Byte
    requires Shaped(g, rows, cols) && 0 <= i < |g|
  {
    SlotCell(i, rows, cols);
    Rule(g[i], NeighbourCount(g, rows, cols, i / cols, i % cols))
  }

  /** The board one generation later: every slot gets its new byte from the
   *  old board only. */
  function NextGen(g: seq<Byte>, rows: nat, cols: nat): (r: seq<Byte>)
    requires Shaped(g, rows, cols)
    ensures |r| == |g| && IsBinary(r)
  {
    seq(|g|, i requires 0 <= i < |g| => NextCell(g, rows, cols, i))
  }

  /** The next generation holds at the slot of (y, x) the rule applied to the
   *  old byte there and the count of its neighbours. */
  lemma NextGenCell(g: seq<Byte>, rows: nat, cols: nat, y: int, x: int)
    requires Shaped(g, rows, cols) && OnBoard(rows, cols, y, x)
    ensures var i := Idx(rows, cols, y, x);
      0 <= i < |g| && NextGen(g, rows, cols)[i] == Rule(g[i], NeighbourCount(g, rows, cols, y, x))
  {
    IdxDivMod(rows, cols, y, x);
  }

  /** Cell (y, x) is alive in the next generation iff it is alive now with 2 or 3
   *  live neighbours, or dead now with exactly 3; otherwise it is dead. */
  lemma NextGenAt(g: seq<Byte>, rows: nat, cols: nat, y: int, x: int)
    requires Shaped(g, rows, cols) && OnBoard(rows, cols, y, x)
    ensures var i := Idx(rows, cols, y, x);
      var n := NeighbourCount(g, rows, cols, y, x);
      var born := (g[i] != 0 && (n == 2 || n == 3)) || (g[i] == 0 && n == 3);
      0 <= i < |g| &&
      (NextGen(g, rows, cols)[i] == 1 <==> born) &&
      (NextGen(g, rows, cols)[i] == 0 <==> !born)
  {
    NextGenCell(g, rows, cols, y, x);
  }

  /** The next generation at (y, x) is the rule applied to the cell and the sum
   *  of its eight torus neighbours. */
  lemma NextGenByTorus(g: seq<Byte>, rows: nat, cols: nat, y: int, x: int)
    requires Shaped(g, rows, cols) && OnBoard(rows, cols, y, x)
    ensures var i := Idx(rows, cols, y, x);
      0 <= i < |g| && NextGen(g, rows, cols)[i] == Rule(g[i], TorusCount(g, rows, cols, y, x))
  {
    NextGenCell(g, rows, cols, y, x);
    NeighbourCountSumsEight(g, rows, cols, y, x);
  }

  /** `h` is the next generation of `g` as soon as every cell of `h` is the rule
   *  applied to that cell of `g` and its eight torus neighbours. */
  lemma NextGenFromCells(g: seq<Byte>, h: seq<Byte>, rows: nat, cols: nat)
    requires Shaped(g, rows, cols) && |h| == |g|
    requires forall y, x :: OnBoard(rows, cols, y, x) ==>
      h[Idx(rows, cols, y, x)] == Rule(At(g, rows, cols, y, x), TorusCount(g, rows, cols, y, x))
    ensures NextGen(g, rows, cols) == h
  {
    forall i | 0 <= i < |g|
      ensures NextGen(g, rows, cols)[i] == h[i]
    {
      SlotCell(i, rows, cols);
      var y, x := i / cols, i % cols;
      NextGenByTorus(g, rows, cols, y, x);
      AtOnBoard(g, rows, cols, y, x);
    }
  }

  /** A cell whose eight torus neighbours are all dead has no neighbours to
   *  count, so it is dead in the next generation, whatever it holds now. */
  lemma IsolatedCellDies(g: seq<Byte>, rows: nat, cols: nat, y: int, x: int)
    requires Shaped(g, rows, cols) && OnBoard(rows, cols, y, x)
    requires forall dy, dx :: -1 <= dy <= 1 && -1 <= dx <= 1 && (dy, dx) != (0, 0) ==>
      Neighbour(g, rows, cols, y, x, dy, dx) == 0
    ensures NeighbourCount(g, rows, cols, y, x) == 0
    ensures var i := Idx(rows, cols, y, x);
      0 <= i < |g| && NextGen(g, rows, cols)[i] == 0
  {
    NextGenByTorus(g, rows, cols, y, x);
    NeighbourCountSumsEight(g, rows, cols, y, x);
    assert Neighbour(g, rows, cols, y, x, -1, -1) == Neighbour(g, rows, cols, y, x, -1, 0) ==
      Neighbour(g, rows, cols, y, x, -1, 1) == Neighbour(g, rows, cols, y, x, 0, -1) ==
      Neighbour(g, rows, cols, y, x, 0, 1) == Neighbour(g, rows, cols, y, x, 1, -1) ==
      Neighbour(g, rows, cols, y, x, 1, 0) == Neighbour(g, rows, cols, y, x, 1, 1) == 0;
  }

  /** On an all-dead board no cell has a live neighbour. */
  lemma AllDeadNoNeighbours(g: seq<Byte>, rows: nat, cols: nat, y: int, x: int)
    requires Shaped(g, rows, cols) && OnBoard(rows, cols, y, x)
    requires forall i :: 0 <= i < |g| ==> g[i] == 0
    ensures NeighbourCount(g, rows, cols, y, x) == 0
  {
    NeighbourCountSumsEight(g, rows, cols, y, x);
  }

  /** An all-dead board stays all-dead. */
  lemma AllDeadStaysDead(g: seq<Byte>, rows: nat, cols: nat)
    requires Shaped(g, rows, cols)
    requires forall i :: 0 <= i < |g| ==> g[i] == 0
    ensures NextGen(g, rows, cols) == g
  {
    var r := NextGen(g, rows, cols);
    forall i | 0 <= i < |g|
      ensures r[i] == g[i]
    {
      SlotCell(i, rows, cols);
      var y, x := i / cols, i % cols;
      NextGenCell(g, rows, cols, y, x);
      AllDeadNoNeighbours(g, rows, cols, y, x);
    }
  }

  // ---------------------------------------------------------------------------
  // Population
  // ---------------------------------------------------------------------------

  /** The sum of the first n bytes, added left to right. */
  function PrefixSum(s: seq<Byte>, n: nat): int
    requires n <= |s|
  {
    if n == 0 then 0 else PrefixSum(s, n - 1) + s[n - 1]
  }

  /** `g.reduce((s, v) => s + v, 0)`: the sum of the buffer, left to right. On a
   *  0/1 board it is the number of live cells, so at most the board size. */
  function Population(s: seq<Byte>): (p: int)
    ensures IsBinary(s) ==> p == |AliveBelow(s, |s|)| <= |s|
  {
    if IsBinary(s) then
      PrefixSumCountsAlive(s, |s|);
      PrefixSum(s, |s|)
    else
      PrefixSum(s, |s|)
  }

  /** The live slots below n. */
  function AliveBelow(s: seq<Byte>, n: nat): set<int>
    requires n <= |s|
  {
    set i | 0 <= i < n && s[i] != 0
  }

  /** On a 0/1 board the sum of a prefix is the number of live cells in it. */
  lemma {:induction false} PrefixSumCountsAlive(s: seq<Byte>, n: nat)
    requires IsBinary(s) && n <= |s|
    ensures PrefixSum(s, n) == |AliveBelow(s, n)| <= n
  {
    if n > 0 {
      PrefixSumCountsAlive(s, n - 1);
      var last := n - 1;
      assert AliveBelow(s, n) == AliveBelow(s, last) + (if s[last] != 0 then {last} else {});
      assert last !in AliveBelow(s, last);
    }
  }

  // ---------------------------------------------------------------------------
  // Imperative operations on buffers
  // ---------------------------------------------------------------------------

  /** `arraysEqual`: false when either buffer is missing, otherwise true iff
   *  the lengths and every element agree. */
  method ArraysEqual(a: array?<Byte>, b: array?<Byte>) returns (eq: bool)
    ensures eq <==> a != null && b != null && a[..] == b[..]
  {
    if a == null || b == null {
      return false;
    }
    if a.Length != b.Length {
      return false;
    }
    for i := 0 to a.Length
      invariant forall j :: 0 <= j < i ==> a[j] == b[j]
    {
      if a[i] != b[i] {
        assert a[..][i] != b[..][i];
        return false;
      }
    }
    return true;
  }

  /** `a.slice()`: a fresh copy of the buffer. */
  method Slice(a: array<Byte>) returns (c: array<Byte>)
    ensures fresh(c) && c[..] == a[..]
  {
    c := new Byte[a.Length](i requires 0 <= i < a.Length reads a => a[i]);
  }

  /** The two inner loops of `step`: the count of cell (y, x) over the wrapped
   *  3x3 block, skipping the centre. */
  method CountNeighbours(g: array<Byte>, rows: nat, cols: nat, y: int, x: int) returns (n: int)
    requires Shaped(g[..], rows, cols) && OnBoard(rows, cols, y, x)
    ensures n == NeighbourCount(g[..], rows, cols, y, x)
  {
    n := 0;
    for dy := -1 to 2
      invariant n == BlockCount(g[..], rows, cols, y, x, dy)
    {
      var m := CountRow(g, rows, cols, y, x, dy);
      n := n + m;
    }
  }

  /** The inner loop of the count: the row of the block at offset dy. */
  method CountRow(g: array<Byte>, rows: nat, cols: nat, y: int, x: int, dy: int) returns (m: int)
    requires Shaped(g[..], rows, cols) && OnBoard(rows, cols, y, x) && -1 <= dy <= 1
    ensures m == RowCount(g[..], rows, cols, y, x, dy, 2)
  {
    m := 0;
    for dx := -1 to 2
      invariant m == RowCount(g[..], rows, cols, y, x, dy, dx)
    {
      if dx == 0 && dy == 0 {
        continue;
      }
      var yy := Wrap(y, dy, rows);
      var xx := Wrap(x, dx, cols);
      m := m + g[Idx(rows, cols, yy, xx)];
    }
  }

  /** `step`: fill a fresh buffer cell by cell from the old board; the old board
   *  is only read, so every new cell depends on the old generation alone. */
  method Step(g: array<Byte>, rows: nat, cols: nat) returns (ng: array<Byte>)
    requires Shaped(g[..], rows, cols)
    ensures fresh(ng) && ng[..] == NextGen(g[..], rows, cols)
  {
    ng := new Byte[g.Length](_ => 0);
    ghost var board := g[..];
    ghost var next := NextGen(board, rows, cols);
    for y := 0 to rows
      invariant y * cols <= rows * cols
      invariant forall i :: 0 <= i < y * cols ==> ng[i] == next[i]
    {
      MulMono(y + 1, rows, cols);
      forall x | 0 <= x < cols
        ensures next[Idx(rows, cols, y, x)] == Rule(board[Idx(rows, cols, y, x)], NeighbourCount(board, rows, cols, y, x))
      {
        NextGenCell(board, rows, cols, y, x);
      }
      StepRow(g, ng, rows, cols, y, next);
      assert y * cols + cols == (y + 1) * cols;
    }
  }

  /** One pass of `step`'s outer loop: the slots of row y get their new bytes,
   *  the slots before the row keep theirs. */
  method StepRow(g: array<Byte>, ng: array<Byte>, rows: nat, cols: nat, y: nat, ghost next: seq<Byte>)
    requires Shaped(g[..], rows, cols) && ng.Length == g.Length && ng != g
    requires y < rows && y * cols + cols <= g.Length && |next| == g.Length
    requires forall x :: 0 <= x < cols ==>
      next[Idx(rows, cols, y, x)] == Rule(g[Idx(rows, cols, y, x)], NeighbourCount(g[..], rows, cols, y, x))
    modifies ng
    ensures forall i :: 0 <= i < y * cols ==> ng[i] == old(ng[i])
    ensures forall i :: y * cols <= i < y * cols + cols ==> ng[i] == next[i]
  {
    ghost var start := y * cols;
    for x := 0 to cols
      invariant forall i :: 0 <= i < start ==> ng[i] == old(ng[i])
      invariant forall i :: start <= i < start + x ==> ng[i] == next[i]
    {
      var n := CountNeighbours(g, rows, cols, y, x);
      var i := Idx(rows, cols, y, x);
      assert i == start + x;
      ng[i] := Rule(g[i], n);
    }
  }
}
