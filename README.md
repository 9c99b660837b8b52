# Game of Life engine, modelled and proved in Dafny

This project models the engine behind `script.js`, a Conway's Game of Life page. The page draws on a canvas, and the drawing is not modelled. What is modelled:

- **The board.** A flat `Uint8Array` of `N * M` cells holds the board, and the engine reads it as a torus.
  - `idx` maps a cell to its slot.
  - `step` computes the next generation by the B3/S23 rule. It counts the eight wrapped neighbours of each cell and writes into a fresh buffer.
- **The run.** It is kept in global variables:
  - the board `g`;
  - the copies `prevGrid` and `prev2Grid` of the two previous boards;
  - `stepCount`, `aliveHistory` and `gameOver`.
- **Run control.** `randInit` starts a run. Each call of `loop` advances it by one generation. The run stops when the board equals either previous board: a still life, or a period-2 oscillator.
- **Step-counter text.** `formatStep` prints the step counter for the overlay, in "K" form from 1000 on.

The project has three modules.

- `Grid` (`Grid.dfy`) covers the board.
  - Pure parts, as functions and lemmas: the `Byte` cell type, `Idx`, the JavaScript remainder `JsRem` and the wrap `Wrap`.
  - The neighbour count: `Visit`, `RowCount`, `BlockCount` and `NeighbourCount`. These follow the order of `step`'s loops.
  - The torus reading `At` and the reference count `TorusCount`, the sum of the eight cells around a cell on the torus. The loop-order count is proved equal to it.
  - The rule `Rule` and the next generation `NextGen`.
  - The population sum `Population`.
  - The imperative parts are methods over arrays:
    - `ArraysEqual`, and `Slice` (`a.slice()`);
    - `Step`, which has the two outer loops of `step`;
    - `StepRow`, one pass of the `y` loop;
    - `CountNeighbours` and `CountRow`, the two inner loops.
  - Each method is proved against the pure functions.
- `Format` (`Format.dfy`) covers `formatStep`, with integer arithmetic.
- `Simulation` (`Simulation.dfy`) covers the run.
  - The class `Game` has one field per global. Its constructor is the state when the page loads.
  - `RandInit` is `randInit`, and `Tick` is one call of `loop`.
  - `Advance` is the part of `loop` that shifts the lags, steps and records the population.
  - Game over:
    - The run invariant is the predicate `RunState`. It is stated over plain values, for any step function `step`.
    - Every game holds a ghost `step` that equals `NextGen` on every board of its shape (`Game.StepsByRule`).
    - So the k-th board of a run is the k-th generation of the board `randInit` drew (`IterateByRule`).
- `Patterns` (`Patterns.dfy`) works out small boards whose fate is known. They are all rectangles of live cells.
  - The 2 x 2 "block" is a still life on any board at least 4 x 4. A run started on it stops on the first tick.
  - The three-cell "blinker" turns from a row into a column and back on any board at least 5 x 5. A run started on it stops on the second tick, by the period-2 test.
  - Both bounds include the program's 100 x 100 board.

## Model

| member | source | states |
|---|---|---|
| Grid.Idx | script.js:29 | the slot `y * M + x` of a cell on the board lies inside the buffer `[0, N * M)` |
| Grid.IdxDivMod | script.js:29 | `idx` has an inverse: slot div `M` is the row and slot mod `M` the column |
| Grid.IdxInjective | script.js:29 | two cells share a slot if and only if they are the same cell |
| Grid.SlotCell | script.js:29 | every slot of the buffer is `idx` of the cell (i div M, i mod M), and that cell is on the board; `IdxInjective` makes it the only one |
| Grid.JsRemTruncates | script.js:55-56 | JavaScript's `%` gives a remainder that differs from the dividend by a multiple of the divisor, is smaller than the divisor in size, and has the dividend's sign |
| Grid.Wrap | script.js:55-56 | `(v + d + n) % n` with JavaScript's truncating `%` lies in `[0, n)` whenever `v + d + n` is not negative |
| Grid.WrapOnTorus | script.js:55-56 | for a coordinate on the board and an offset in -1..1, the wrapped coordinate is `(v + d) mod n`: -1 becomes `n - 1`, `n` becomes 0, and any other value is kept |
| Grid.VisitAt | script.js:54-57 | one visit of the inner loop adds the byte of the torus cell at the offset, or nothing at offset (0, 0) |
| Grid.RowCountAt | script.js:53-58 | one pass of the `dx` loop adds the three torus cells of its row, less the centre |
| Grid.NeighbourCount | script.js:50-58 | the count `n` that the loops build up is never negative, and on a 0/1 board it is at most 8 |
| Grid.NeighbourCountSumsEight | script.js:50-58 | the count is `TorusCount`: the sum of exactly the eight cells around (y, x) on the torus |
| Grid.NeighbourUnaffected | script.js:54-57 | on a board at least 2 x 2, no wrapped neighbour of a cell reads that cell's own slot |
| Grid.RowIgnoresCentre | script.js:53-58 | on a board at least 2 x 2, each row of the block has the same count whatever the centre holds |
| Grid.NeighbourCountIgnoresCentre | script.js:50-58 | on a board at least 2 x 2, the count of a cell is the same whatever the cell itself holds |
| Grid.CornerRow | script.js:53-58 | around each of the three corners other than (0, 0), one row of the block sees the live corner (0, 0) once if that row is row 0 on the torus, else not at all |
| Grid.CornerSeenAcrossEdges | script.js:52-58 | edges wrap: the only live cell, (0, 0), is counted exactly once by each of the other three corners, which reach it across the edges |
| Grid.RuleByCount | script.js:62 | B3/S23 read the other way round: the new byte is 0 or 1; three neighbours always give 1; two neighbours keep a live cell alive and a dead one dead; any other count gives 0 |
| Grid.NextGen | script.js:46-66 | the next generation has the old board's length and holds only 0 and 1 |
| Grid.NextGenCell | script.js:60-62 | slot `idx(y, x)` of the next generation is the rule applied to the old byte there and the count over the old board |
| Grid.NextGenAt | script.js:60-62 | a cell is 1 in the next generation iff it is alive with 2 or 3 neighbours or dead with exactly 3, and 0 otherwise |
| Grid.NextGenByTorus | script.js:50-62 | slot `idx(y, x)` of the next generation is the rule applied to the old byte and the sum of the eight torus neighbours |
| Grid.NextGenFromCells | script.js:46-66 | a board is the next generation as soon as each of its cells is the rule applied to the old cell and its eight torus neighbours |
| Grid.IsolatedCellDies | script.js:50-62 | a cell whose eight torus neighbours are all dead has count 0 and is dead in the next generation, whatever it holds now |
| Grid.AllDeadNoNeighbours | script.js:50-58 | on an all-dead board every cell has count 0 |
| Grid.AllDeadStaysDead | script.js:46-66 | an all-dead board has an all-dead successor |
| Grid.PrefixSumCountsAlive | script.js:41 | on a 0/1 board, the left-to-right sum of a prefix is the number of live slots in it, at most its length |
| Grid.Population | script.js:41 | on a 0/1 board, `g.reduce((s, v) => s + v, 0)` is the number of live cells, at most `N * M`; line 279 computes the same sum |
| Grid.ArraysEqual | script.js:21-26 | false if either buffer is null; otherwise true iff the lengths agree and every index holds equal values |
| Grid.Slice | script.js:272-273 | `slice()` returns a fresh buffer with the same contents |
| Grid.CountNeighbours | script.js:50-59 | the `dy` / `dx` loops compute exactly `NeighbourCount` of the old board |
| Grid.CountRow | script.js:53-58 | one pass of the `dx` loop computes exactly `RowCount` for its row |
| Grid.Step | script.js:46-66 | `step` returns a fresh buffer equal to `NextGen` of the old board |
| Grid.StepRow | script.js:49-63 | one pass of the `y` loop gives every slot of row y its next-generation byte and leaves the earlier slots alone |
| Format.NatToString | script.js:9 | `String(n)` is a non-empty string of decimal digits with no leading zero |
| Format.ParseNatToString | script.js:9 | reading back `String(n)` gives `n` |
| Format.RoundDiv | script.js:11 | `Math.round(a / b)` for non-negative values is within half a unit of `a / b`, halves rounded up |
| Format.TenthsToString | script.js:11 | a number of tenths as `toString` prints it is a plain decimal with at most one fractional digit, and never ends in ".0" |
| Format.TenthsRoundTrip | script.js:11 | a number of tenths as `toString` prints it reads back as itself |
| Format.StripDotZero | script.js:12 | `.replace(/\.0$/, '')` cuts a trailing ".0" and leaves any other text as it is |
| Format.FormatStep | script.js:8-13 | the text ends in "K" exactly when the counter is at least 1000 |
| Format.FormatStepSmall | script.js:9 | below 1000 the text is a plain integer of at most three digits, with no leading zero, that reads back as `n` |
| Format.FormatStepThousands | script.js:10-12 | from 1000 to below 100K the text is a plain decimal followed by "K": digits with no leading zero, at most one fractional digit, never ".0"; it reads as `n / 1000` rounded half up to one decimal |
| Format.FormatStepHundredThousands | script.js:10-12 | from 100K on the text is a plain integer with no leading zero followed by "K", reading as `n / 1000` rounded half up to a whole number |
| Format.FormatStepBelowThousand | script.js:9 | 999 is shown as "999" |
| Format.FormatStepThousand | script.js:10-12 | 1000 is shown as "1K": `toString` of 1 has no ".0", so the replace leaves it alone |
| Format.FormatStepFraction | script.js:10-12 | 1500 is shown as "1.5K" |
| Format.FormatStepRoundsUp | script.js:10-12 | 99999 is shown as "100K", rounded up to the next thousand |
| Format.FormatStepWholeThousands | script.js:10-12 | 123000 is shown as "123K" |
| Simulation.FixedPointPersists | script.js:283-287 | a board that is its own successor stays the board at every later step |
| Simulation.PeriodTwoPersists | script.js:288-292 | a board that comes back after two steps comes back at every even distance |
| Simulation.PopulationsGrow | script.js:279-280 | appending the population of the next board keeps `aliveHistory[i]` equal to the population of board i |
| Simulation.RunStateAdvances | script.js:271-292 | one tick preserves the run invariant: board i, lags i-1 and i-2, the population history, and game over iff the new board equals a lag |
| Simulation.StillRunStops | script.js:282-287 | a run from a board that is its own successor is not over at the start and is over after one step, on the fixed-point test |
| Simulation.PeriodTwoRunStops | script.js:282-292 | a run from a board that comes back after two different steps goes on after one step and is over after two, with the board equal to the second lag and not the first |
| Simulation.RunStateRepeats | script.js:282-292 | a run that is over repeats its final board every second step, and every step when it stopped on a fixed point |
| Simulation.IterateByRule | script.js:275 | the game's step function, run from a board of its shape, yields that board's generations: each is `NextGen` of the one before |
| Simulation.StoppedRunRepeats | script.js:282-292 | a stopped game would show its final board again every second generation from the board `randInit` drew, and every generation after a fixed point |
| Simulation.FirstStopIsFixedPoint | script.js:272-292 | a game that stops on the first tick has no `prev2Grid` and stopped on a fixed point, never on a period-2 repeat |
| Simulation.Game.constructor | script.js:3-18 | at load time the board is all dead, the counter is 0, the history is empty, both lags are null and the game is not over |
| Simulation.Game.RandInit | script.js:32-43 | each cell is alive exactly where its draw fell below 0.2; the counter is 0, both lags are null, the game is not over, and the history is the initial population; a new run starts from the drawn board |
| Simulation.Game.Advance | script.js:271-280 | `prev2Grid` becomes a copy of the old `prevGrid` (or null), `prevGrid` a copy of the old board, the board its `NextGen`, the counter grows by one and the history by the new population |
| Simulation.Game.Tick | script.js:268-296 | a tick after game over changes nothing; otherwise it advances the run, sets `gameOver` iff the new board equals `prevGrid` or a non-null `prev2Grid`, asks for another frame iff not over, keeps the run's drawn board, and keeps `aliveHistory.length == stepCount + 1` and the run invariant |
| Patterns.RectCount | script.js:50-58 | on a rectangle of live cells, the count around a cell plus the cell itself adds, for each of the three block rows that lies in the row band, the number of block columns that lie in the column band |
| Patterns.BlockIsStill | script.js:46-66 | on any board at least 4 x 4, the 2 x 2 block is its own next generation |
| Patterns.BlinkerRowTurns | script.js:46-66 | on any board at least 5 x 5, a row of three live cells turns into a column of three through the middle cell |
| Patterns.BlinkerColumnTurns | script.js:46-66 | the column of three turns back into the row of three |
| Patterns.BlockStopsOnFirstTick | script.js:282-287 | a game whose drawn board is the block is not over at step 0 and is over at step 1, with the board equal to `prevGrid` |
| Patterns.BlinkerStopsOnSecondTick | script.js:282-292 | a game whose drawn board is the blinker row goes on at step 1, showing the column, and is over at step 2, back at the row, which differs from `prevGrid` and equals `prev2Grid` |

## Left out

- `draw` (script.js:69-265) is canvas drawing with text and graph layout in floating point, so it is not modelled. `Tick` omits its calls.
- `requestAnimationFrame(loop)` (script.js:295) is scheduling by the browser. `Tick` returns whether it would be called.
- The top-level calls (script.js:298-300) are not modelled. A client runs the constructor, `RandInit` and then `Tick`.
- `Math.random()` (script.js:34) is an input: `RandInit` takes one draw per cell, true where the random number fell below 0.2.
- `N` and `M` (script.js:1) are parameters `rows` and `cols` of any positive size. The program fixes them at 100.
- `cell` (script.js:2) is only used for drawing, so it is not modelled.
- Format.FormatStepThousands: the source computes `k * 10` and `Math.round` on doubles. The model rounds half up with exact integers, so it makes no claim about how doubles behave at exact .5 ties.
- Format.FormatStepHundredThousands: the same limit on floating-point rounding applies. The model's counter is unbounded, while JavaScript's numbers are exact integers only up to 2^53 (and `toString` turns to exponent notation from 1e21), which `stepCount` never reaches.
- Grid.NeighbourCountIgnoresCentre: this is stated for boards at least 2 x 2.
  - On a board one cell wide or high, the wrapped offsets land on the cell itself. The model's count does this exactly as the source does.
  - The program's 100 x 100 board is far above this bound.
- Grid.CornerSeenAcrossEdges: this is stated for boards at least 3 x 3. Smaller boards wrap a neighbour onto the same cell more than once.
- Simulation.Game.Tick and Simulation.Game.Advance: `stepCount` is a `nat` that always grows by one. In JavaScript, `stepCount++` (script.js:276) stops changing at 2^53, where doubles can no longer add 1. A run would need 2^53 frames to get there.
- Wrap-around of `Uint8Array` writes is not modelled, because every value the program writes is 0 or 1. `Byte` bounds every cell to 0..255.
- `aliveHistory.push` is modelled as appending to a sequence that the game owns, because nothing else holds the array.
