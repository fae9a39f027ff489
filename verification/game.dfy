/**
 * The game state and the two operations that rebuild the play field:
 * starting a new game and advancing the snake by one simulation step.
 */
module Game {
  import opened Board
  import opened Fruit

  /**
   * Everything the game keeps between events. `width` and `height` are the
   * canvas size in pixels; `lastMoveTime` is the timestamp of the last frame
   * on which the step interval had elapsed.
   */
  datatype GameState = GameState(
    snake: seq<Cell>,
    fruits: seq<Cell>,
    direction: Dir,
    score: nat,
    gameOver: bool,
    paused: bool,
    width: nat,
    height: nat,
    lastMoveTime: nat)
  {
    predicate Running() {
      !paused && !gameOver
    }
  }

  /** A new state together with the part of the random source not yet used. */
  datatype Outcome = Outcome(game: GameState, rest: seq<Draw>)

  /** The state as the script declares it, before the first new game. */
  function Blank(width: nat, height: nat): GameState {
    GameState([], [], Dir(1, 0), 0, false, false, width, height, 0)
  }

  /**
   * The opening snake: three cells in a row, head in the block that holds
   * the canvas centre, body trailing to the left.
   */
  function InitialSnake(width: nat, height: nat): (snake: seq<Cell>)
    ensures |snake| == 3 && Distinct(snake)
    ensures forall i :: 0 <= i < |snake| ==> Aligned(snake[i])
    ensures forall i :: 0 < i < |snake| ==> snake[i - 1] == Advance(snake[i], Dir(1, 0))
    ensures snake[0].x <= width / 2 < snake[0].x + BlockSize
    ensures snake[0].y <= height / 2 < snake[0].y + BlockSize
    ensures width >= 4 * BlockSize && height >= 1 ==>
      forall i :: 0 <= i < |snake| ==> !OutOfBounds(snake[i], width, height)
  {
    // Halving, dividing by BlockSize and rounding down is one division on naturals.
    var cx := (width / (2 * BlockSize)) * BlockSize;
    var cy := (height / (2 * BlockSize)) * BlockSize;
    [Cell(cx, cy), Cell(cx - BlockSize, cy), Cell(cx - 2 * BlockSize, cy)]
  }

  /** The random source can supply the three fruits of a new game on this canvas. */
  predicate InitReady(s: GameState, draws: seq<Draw>) {
    && ValidDraws(draws, s.width, s.height)
    && FreeCount(InitialSnake(s.width, s.height), draws) >= 3
  }

  /**
   * A new game: the opening snake moving right, score 0, neither paused nor
   * over, three fresh fruits. The canvas size and the step timer survive.
   */
  function Init(s: GameState, draws: seq<Draw>): (o: Outcome)
    requires InitReady(s, draws)
    ensures var g := o.game;
      && g.snake == InitialSnake(s.width, s.height)
      && g.direction == Dir(1, 0) && g.score == 0
      && !g.gameOver && !g.paused
      && |g.fruits| == 3
      && (forall i :: 0 <= i < |g.fruits| ==> g.fruits[i] !in g.snake && Placed(g.fruits[i], s.width, s.height))
      && g.width == s.width && g.height == s.height && g.lastMoveTime == s.lastMoveTime
    ensures IsSuffix(o.rest, draws)
  {
    var snake := InitialSnake(s.width, s.height);
    var (fruits, rest) := SpawnFruits(snake, draws, s.width, s.height);
    Outcome(s.(snake := snake, direction := Dir(1, 0), score := 0, gameOver := false, paused := false,
               fruits := fruits), rest)
  }

  // ---------------------------------------------------------------------
  // Eating a fruit
  // ---------------------------------------------------------------------

  /** The fruit loop of the step: the first index at or after `i` whose fruit is at `head`. */
  function FindFruit(fruits: seq<Cell>, head: Cell, i: nat): (r: Option<nat>)
    requires i <= |fruits|
    ensures r.Some? ==> i <= r.value < |fruits| && fruits[r.value] == head
    ensures r.Some? ==> forall j :: i <= j < r.value ==> fruits[j] != head
    ensures r.None? ==> forall j :: i <= j < |fruits| ==> fruits[j] != head
    decreases |fruits| - i
  {
    if i == |fruits| then None
    else if fruits[i] == head then Some(i)
    else FindFruit(fruits, head, i + 1)
  }

  /** Reference definition: `xs` without the first occurrence of `c`. */
  function RemoveFirst(xs: seq<Cell>, c: Cell): (r: seq<Cell>)
    ensures c in xs ==> |r| == |xs| - 1
    ensures c !in xs ==> r == xs
  {
    if xs == [] then []
    else if xs[0] == c then xs[1..]
    else [xs[0]] + RemoveFirst(xs[1..], c)
  }

  /** Removing the first occurrence takes exactly one copy of `c` out of the multiset of cells. */
  lemma {:induction false} RemoveFirstMultiset(xs: seq<Cell>, c: Cell)
    requires c in xs
    ensures multiset(RemoveFirst(xs, c)) == multiset(xs) - multiset{c}
  {
    assert xs == [xs[0]] + xs[1..];
    if xs[0] != c {
      RemoveFirstMultiset(xs[1..], c);
    }
  }

  /** Splicing out the fruit the loop found removes exactly the first fruit at `c`. */
  lemma {:induction false} SpliceRemovesFirst(xs: seq<Cell>, c: Cell, i: nat)
    requires i < |xs| && xs[i] == c && c !in xs[..i]
    ensures xs[..i] + xs[i + 1..] == RemoveFirst(xs, c)
  {
    if i == 0 {
      assert xs[..0] + xs[1..] == xs[1..];
    } else {
      var tail := xs[1..];
      assert xs[0] != c by { assert xs[0] == xs[..i][0]; }
      var before := tail[..i - 1];
      assert c !in before by {
        forall k | 0 <= k < |before|
          ensures before[k] != c
        {
          assert before[k] == xs[..i][k + 1];
        }
      }
      SpliceRemovesFirst(tail, c, i - 1);
      assert xs[..i] == [xs[0]] + before;
      assert xs[i + 1..] == tail[i..];
      assert RemoveFirst(xs, c) == [xs[0]] + RemoveFirst(tail, c);
    }
  }

  // ---------------------------------------------------------------------
  // The simulation step
  // ---------------------------------------------------------------------

  function NextHead(s: GameState): Cell
    requires |s.snake| > 0
  {
    Advance(s.snake[0], s.direction)
  }

  /** The step will land the head on a fruit (and so needs a replacement). */
  predicate Eats(s: GameState)
    requires |s.snake| > 0
  {
    var head := NextHead(s);
    !OutOfBounds(head, s.width, s.height) && head !in s.snake && head in s.fruits
  }

  /** The step can run: there is a head, and a replacement fruit can be drawn if one is eaten. */
  predicate MoveReady(s: GameState, draws: seq<Draw>) {
    && |s.snake| > 0
    && ValidDraws(draws, s.width, s.height)
    && (Eats(s) ==> FreeCount([NextHead(s)] + s.snake, draws) > 0)
  }

  /**
   * One simulation step. A head outside the canvas or on any segment, the
   * tail included, ends the game and changes nothing else. Otherwise the
   * head is prepended; on a fruit the score rises by one, the first such
   * fruit is removed, one replacement is appended and the tail stays; off
   * a fruit the tail is dropped.
   */
  function MoveSnake(s: GameState, draws: seq<Draw>): (o: Outcome)
    requires MoveReady(s, draws)
    ensures var head := NextHead(s);
      OutOfBounds(head, s.width, s.height) || head in s.snake ==>
        o == Outcome(s.(gameOver := true), draws)
    ensures var head := NextHead(s);
      !OutOfBounds(head, s.width, s.height) && head !in s.snake && head !in s.fruits ==>
        o == Outcome(s.(snake := [head] + s.snake[..|s.snake| - 1]), draws)
    ensures var head := NextHead(s);
      Eats(s) ==>
        var n := |s.fruits|;
        && o.game == s.(snake := [head] + s.snake, score := s.score + 1, fruits := o.game.fruits)
        && |o.game.fruits| == n
        && o.game.fruits[..n - 1] == RemoveFirst(s.fruits, head)
        && Retried(o.game.fruits[n - 1], o.rest, o.game.snake, draws)
        && Placed(o.game.fruits[n - 1], s.width, s.height)
  {
    var head := Advance(s.snake[0], s.direction);
    if OutOfBounds(head, s.width, s.height) || Collides(s.snake, head) then
      Outcome(s.(gameOver := true), draws)
    else
      var grown := [head] + s.snake;
      match FindFruit(s.fruits, head, 0)
      case Some(i) =>
        SpliceRemovesFirst(s.fruits, head, i);
        var spawned := SpawnFruit(grown, draws, s.width, s.height);
        var fruits := s.fruits[..i] + s.fruits[i + 1..] + [spawned.0];
        assert fruits[..|s.fruits| - 1] == s.fruits[..i] + s.fruits[i + 1..];
        Outcome(s.(snake := grown, score := s.score + 1, fruits := fruits), spawned.1)
      case None =>
        Outcome(s.(snake := grown[..|grown| - 1]), draws)
  }
}
