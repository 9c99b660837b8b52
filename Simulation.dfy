/** The run: the state that `randInit` resets and that each call of `loop`
 *  advances by one generation until the board stops changing or starts to
 *  alternate between two boards. */
module Simulation {
  import opened Grid

  /** `step` applied k times to `b`. */
  function Iterate(step: seq<Byte> -> seq<Byte>, b: seq<Byte>, k: nat): seq<Byte>
  {
    if k == 0 then b else step(Iterate(step, b, k - 1))
  }

  /** One generation as a total function on boards: `NextGen` on every board of
   *  the game's shape, and no change on any other. */
  function Successor(rows: nat, cols: nat): seq<Byte> -> seq<Byte>
  {
    b => if Shaped(b, rows, cols) then NextGen(b, rows, cols) else b
  }

  /** A board that is its own successor stays for ever. */
  lemma {:induction false} FixedPointPersists(step: seq<Byte> -> seq<Byte>, init: seq<Byte>, s: nat, k: nat)
    requires s <= k && Iterate(step, init, s + 1) == Iterate(step, init, s)
    ensures Iterate(step, init, k) == Iterate(step, init, s)
  {
    if k > s {
      FixedPointPersists(step, init, s, k - 1);
    }
  }

  /** A board that comes back after two generations alternates for ever. */
  lemma {:induction false} PeriodTwoPersists(step: seq<Byte> -> seq<Byte>, init: seq<Byte>, s: nat, k: nat)
    requires s <= k && (k - s) % 2 == 0 && Iterate(step, init, s + 2) == Iterate(step, init, s)
    ensures Iterate(step, init, k) == Iterate(step, init, s)
  {
    if k > s {
      PeriodTwoPersists(step, init, s, k - 2);
      assert Iterate(step, init, k - 1) == Iterate(step, init, s + 1);
      assert Iterate(step, init, k) == Iterate(step, init, s + 2);
    }
  }

  datatype Option<T> = None | Some(value: T)

  /** A lag buffer: `null`, or the board it holds. */
  function LagOf(a: array?<Byte>): Option<seq<Byte>>
    reads a
  {
    if a == null then None else Some(a[..])
  }

  /** `history` holds the populations of the first `|history|` boards of the run
   *  from `init`. */
  ghost predicate PopulationsOf(step: seq<Byte> -> seq<Byte>, init: seq<Byte>, history: seq<int>)
  {
    forall i :: 0 <= i < |history| ==> history[i] == Population(Iterate(step, init, i))
  }

  /** Appending the population of the next board keeps the history whole. */
  lemma PopulationsGrow(step: seq<Byte> -> seq<Byte>, init: seq<Byte>, history: seq<int>)
    requires PopulationsOf(step, init, history)
    ensures PopulationsOf(step, init, history + [Population(Iterate(step, init, |history|))])
  {
    var h := history + [Population(Iterate(step, init, |history|))];
    forall i | 0 <= i < |history|
      ensures h[i] == Population(Iterate(step, init, i))
    {
      assert h[i] == history[i];
    }
  }

  /** The invariant of a run over plain values, after `|history| - 1` steps
   *  from the board `init`: `board` is that iterate of `init`, the lag buffers
   *  hold the one and the two boards before it (when there were any), the
   *  history holds the population of every board so far, and the run is `over`
   *  exactly when the board equals one of the two lags. */
  ghost predicate RunState(step: seq<Byte> -> seq<Byte>, init: seq<Byte>, history: seq<int>, board: seq<Byte>,
                           lag1: Option<seq<Byte>>, lag2: Option<seq<Byte>>, over: bool)
  {
    |history| >= 1 &&
    board == Iterate(step, init, |history| - 1) &&
    PopulationsOf(step, init, history) &&
    lag1 == (if |history| >= 2 then Some(Iterate(step, init, |history| - 2)) else None) &&
    lag2 == (if |history| >= 3 then Some(Iterate(step, init, |history| - 3)) else None) &&
    (over <==> lag1.Some? && (board == lag1.value || (lag2.Some? && board == lag2.value)))
  }

  /** One step more: the board advances, the lags shift, the history grows by
   *  the new population, and the run is over iff the new board repeats one of
   *  the two lags. */
  lemma RunStateAdvances(step: seq<Byte> -> seq<Byte>, init: seq<Byte>, history: seq<int>, board: seq<Byte>,
                         lag1: Option<seq<Byte>>, lag2: Option<seq<Byte>>,
                         history': seq<int>, board': seq<Byte>,
                         lag1': Option<seq<Byte>>, lag2': Option<seq<Byte>>, over': bool)
    requires RunState(step, init, history, board, lag1, lag2, false)
    requires board' == step(board) && history' == history + [Population(board')]
    requires lag1' == Some(board) && lag2' == lag1
    requires over' <==> board' == board || (lag1.Some? && board' == lag1.value)
    ensures RunState(step, init, history', board', lag1', lag2', over')
  {
    var n := |history|;
    assert |history'| == n + 1;
    assert board' == Iterate(step, init, n);
    assert lag1' == Some(Iterate(step, init, n - 1));
    if n >= 2 {
      assert lag2' == Some(Iterate(step, init, n - 2));
    }
    PopulationsGrow(step, init, history);
  }

  /** A run from a board that is its own successor is not over before the
   *  first step and is over right after it, with the board equal to the lag. */
  lemma StillRunStops(step: seq<Byte> -> seq<Byte>, init: seq<Byte>, history: seq<int>, board: seq<Byte>,
                      lag1: Option<seq<Byte>>, lag2: Option<seq<Byte>>, over: bool)
    requires RunState(step, init, history, board, lag1, lag2, over) && step(init) == init
    ensures |history| == 1 ==> !over
    ensures |history| == 2 ==> over && board == init && lag1 == Some(board)
  {
    if |history| == 2 {
      assert board == step(Iterate(step, init, 0));
    }
  }

  /** A run from a board that comes back after two different steps goes on
   *  after the first step and is over after the second, with the board
   *  different from the first lag and equal to the second. */
  lemma PeriodTwoRunStops(step: seq<Byte> -> seq<Byte>, init: seq<Byte>, history: seq<int>, board: seq<Byte>,
                          lag1: Option<seq<Byte>>, lag2: Option<seq<Byte>>, over: bool)
    requires RunState(step, init, history, board, lag1, lag2, over)
    requires step(init) != init && step(step(init)) == init
    ensures |history| == 2 ==> !over && board == step(init)
    ensures |history| == 3 ==> over && board == init && lag1 == Some(step(init)) && lag2 == Some(board)
  {
    assert Iterate(step, init, 1) == step(init);
    if |history| == 3 {
      assert board == step(Iterate(step, init, 1));
    }
  }

  /** The globals of the program: the board `g`, the two lag buffers, the step
   *  counter, the population history and the game-over flag. */
  class Game {
    const rows: nat
    const cols: nat
    var g: array<Byte>
    var stepCount: nat
    var aliveHistory: seq<int>
    var prevGrid: array?<Byte>
    var prev2Grid: array?<Byte>
    var gameOver: bool
    /** The board `randInit` drew. */
    ghost var init: seq<Byte>
    /** One generation, as a function on boards. */
    ghost const step: seq<Byte> -> seq<Byte>

    /** `step` is `NextGen` on every board of the game's shape. */
    ghost predicate StepsByRule()
    {
      forall b {:trigger NextGen(b, rows, cols)} :: Shaped(b, rows, cols) ==> step(b) == NextGen(b, rows, cols)
    }

    /** Sizes never change and the board only holds 0 and 1. */
    ghost predicate Valid()
      reads this, g, prevGrid, prev2Grid
    {
      rows > 0 && cols > 0 && StepsByRule() && g.Length == rows * cols && IsBinary(g[..]) &&
      (prevGrid != null ==> prevGrid.Length == rows * cols) &&
      (prev2Grid != null ==> prev2Grid.Length == rows * cols)
    }

    /** The invariant of a run started by `randInit`, see `RunState`. */
    ghost predicate Started()
      reads this, g, prevGrid, prev2Grid
    {
      Valid() && |aliveHistory| == stepCount + 1 &&
      Shaped(init, rows, cols) &&
      RunState(step, init, aliveHistory, g[..], LagOf(prevGrid), LagOf(prev2Grid), gameOver)
    }

    /** The state at load time, before `randInit`: an all-dead board, an empty
     *  history and no lag buffers. */
    constructor (rows: nat, cols: nat)
      requires rows > 0 && cols > 0
      ensures Valid() && this.rows == rows && this.cols == cols && step == Successor(rows, cols)
      ensures fresh(g) && forall i :: 0 <= i < g.Length ==> g[i] == 0
      ensures stepCount == 0 && aliveHistory == [] && prevGrid == null && prev2Grid == null && !gameOver
    {
      this.rows := rows;
      this.cols := cols;
      step := Successor(rows, cols);
      g := new Byte[rows * cols](_ => 0);
      stepCount := 0;
      aliveHistory := [];
      prevGrid := null;
      prev2Grid := null;
      gameOver := false;
      init := [];
    }

    /** `randInit`: overwrite every cell in place, alive where `draws` says the
     *  random number fell below 0.2, and start a new run. */
    method RandInit(draws: seq<bool>)
      requires Valid() && |draws| == g.Length
      modifies this, g
      ensures Started()
      ensures g == old(g) && forall i :: 0 <= i < |draws| ==> g[i] == if draws[i] then 1 else 0
      ensures stepCount == 0 && prevGrid == null && prev2Grid == null && !gameOver
      ensures aliveHistory == [Population(g[..])] && init == g[..]
    {
      for i := 0 to g.Length
        invariant g == old(g)
        invariant forall j :: 0 <= j < i ==> g[j] == if draws[j] then 1 else 0
      {
        g[i] := if draws[i] then 1 else 0;
      }
      stepCount := 0;
      prevGrid := null;
      prev2Grid := null;
      gameOver := false;
      var initAlive := Population(g[..]);
      aliveHistory := [initAlive];
      init := g[..];
    }

    /** The part of `loop` that advances the run: the lag buffers shift (as
     *  copies), the board advances one generation, and the counter and the
     *  history grow by one. */
    method Advance()
      requires Valid()
      modifies this
      ensures Valid() && gameOver == old(gameOver)
      ensures prev2Grid == null <==> old(prevGrid) == null
      ensures prev2Grid != null ==> fresh(prev2Grid) && prev2Grid[..] == old(prevGrid[..])
      ensures prevGrid != null && fresh(prevGrid) && prevGrid[..] == old(g[..])
      ensures fresh(g) && g[..] == NextGen(old(g[..]), rows, cols)
      ensures stepCount == old(stepCount) + 1
      ensures aliveHistory == old(aliveHistory) + [Population(g[..])]
      ensures init == old(init)
    {
      if prevGrid != null {
        prev2Grid := Slice(prevGrid);
      } else {
        prev2Grid := null;
      }
      prevGrid := Slice(g);
      g := Step(g, rows, cols);
      stepCount := stepCount + 1;
      var alive := Population(g[..]);
      aliveHistory := aliveHistory + [alive];
    }

    /** One call of `loop`, without the drawing: nothing happens once the game is
     *  over; otherwise the run advances, and the game ends on a fixed point or a
     *  return to the board of two generations ago. The result tells whether
     *  `loop` asks for another frame. */
    method Tick() returns (scheduled: bool)
      requires Valid()
      modifies this
      ensures Valid()
      ensures old(gameOver) ==> unchanged(this) && !scheduled
      ensures !old(gameOver) ==>
        (prev2Grid == null <==> old(prevGrid) == null) &&
        (prev2Grid != null ==> fresh(prev2Grid) && prev2Grid[..] == old(prevGrid[..])) &&
        prevGrid != null && fresh(prevGrid) && prevGrid[..] == old(g[..]) &&
        fresh(g) && g[..] == NextGen(old(g[..]), rows, cols) &&
        stepCount == old(stepCount) + 1 &&
        aliveHistory == old(aliveHistory) + [Population(g[..])] && init == old(init) &&
        (gameOver <==> g[..] == prevGrid[..] || (prev2Grid != null && g[..] == prev2Grid[..])) &&
        scheduled == !gameOver
      ensures old(Started()) ==> Started()
    {
      if gameOver {
        return false;
      }
      Advance();
      if old(Started()) {
        RunStateAdvances(step, init, old(aliveHistory), old(g[..]), old(LagOf(prevGrid)), old(LagOf(prev2Grid)),
                         aliveHistory, g[..], LagOf(prevGrid), LagOf(prev2Grid),
                         g[..] == prevGrid[..] || (prev2Grid != null && g[..] == prev2Grid[..]));
      }
      var fixed := ArraysEqual(g, prevGrid);
      if fixed {
        gameOver := true;
        return false;
      }
      if prev2Grid != null {
        var repeated := ArraysEqual(g, prev2Grid);
        if repeated {
          gameOver := true;
          return false;
        }
      }
      return true;
    }
  }

  /** A run that is over would never change again: every second board from the
   *  current one on is the current board, and when the board is a fixed point
   *  every later board is. */
  lemma RunStateRepeats(step: seq<Byte> -> seq<Byte>, init: seq<Byte>, history: seq<int>, board: seq<Byte>,
                        lag1: Option<seq<Byte>>, lag2: Option<seq<Byte>>, s: nat, j: nat)
    requires RunState(step, init, history, board, lag1, lag2, true) && s == |history| - 1
    ensures Iterate(step, init, s + 2 * j) == board
    ensures lag1 == Some(board) ==> Iterate(step, init, s + j) == board
  {
    var every, everyOther := s + j, s + 2 * j;
    assert board == Iterate(step, init, s);
    if lag1 == Some(board) {
      var t := s - 1;
      assert t + 1 == s && Iterate(step, init, t) == board;
      FixedPointPersists(step, init, t, every);
      FixedPointPersists(step, init, t, everyOther);
    } else {
      var t := s - 2;
      assert t + 2 == s && Iterate(step, init, t) == board;
      PeriodTwoPersists(step, init, t, everyOther);
    }
  }

  /** The game's `step` run from a board of its shape yields the generations of
   *  that board: each keeps the shape and the next is `NextGen` of it. */
  lemma {:induction false} IterateByRule(game: Game, b: seq<Byte>, k: nat)
    requires game.StepsByRule() && Shaped(b, game.rows, game.cols)
    ensures Shaped(Iterate(game.step, b, k), game.rows, game.cols)
    ensures Iterate(game.step, b, k + 1) == NextGen(Iterate(game.step, b, k), game.rows, game.cols)
  {
    if k > 0 {
      IterateByRule(game, b, k - 1);
    }
  }

  /** A stopped game, run on, would show its final board again every second
   *  generation, and every generation after a fixed point. */
  lemma StoppedRunRepeats(game: Game, j: nat)
    requires game.Started() && game.gameOver
    ensures Iterate(game.step, game.init, game.stepCount + 2 * j) == game.g[..]
    ensures game.g[..] == game.prevGrid[..] ==>
      Iterate(game.step, game.init, game.stepCount + j) == game.g[..]
  {
    RunStateRepeats(game.step, game.init, game.aliveHistory, game.g[..],
                    LagOf(game.prevGrid), LagOf(game.prev2Grid), game.stepCount, j);
  }

  /** The first tick can only stop on a fixed point: there is no board from two
   *  generations ago yet. */
  lemma FirstStopIsFixedPoint(game: Game)
    requires game.Started() && game.stepCount == 1 && game.gameOver
    ensures game.prev2Grid == null && game.g[..] == game.prevGrid[..]
  {
  }
}
