/**
 * Concrete runs on a 100 x 100 canvas: a plain step, eating, running off
 * the edge and restarting, and two consequences of the code as written
 * (a quick double turn reverses into the neck; coinciding fruits leave one
 * under the head).
 */
module Scenarios {
  import opened Board
  import opened Fruit
  import opened Game
  import opened Input

  /** Three cells in a row heading right, head at (40, 40). */
  function Playing(fruits: seq<Cell>): GameState {
    GameState([Cell(40, 40), Cell(20, 40), Cell(0, 40)], fruits, Dir(1, 0), 0,
              false, false, 100, 100, 0)
  }

  lemma PlainStepScenario()
    ensures var o := MoveSnake(Playing([Cell(0, 0), Cell(80, 80), Cell(80, 0)]), []);
      && o.game.snake == [Cell(60, 40), Cell(40, 40), Cell(20, 40)]
      && o.game.score == 0 && !o.game.gameOver
  {
  }

  lemma EatScenario(s: GameState, draws: seq<Draw>)
    requires s == Playing([Cell(60, 40), Cell(80, 80), Cell(80, 0)]) && draws == [Draw(0, 0)]
    ensures MoveReady(s, draws)
    ensures var o := MoveSnake(s, draws);
      && o.game.snake == [Cell(60, 40), Cell(40, 40), Cell(20, 40), Cell(0, 40)]
      && o.game.score == 1
      && o.game.fruits == [Cell(80, 80), Cell(80, 0), Cell(0, 0)]
  {
    var head := Cell(60, 40);
    assert NextHead(s) == head;
    assert FreeCount([head] + s.snake, draws) == 1;
    assert Eats(s);
    var o := MoveSnake(s, draws);
    assert o.rest == [];
    assert RemoveFirst(s.fruits, head) == [Cell(80, 80), Cell(80, 0)];
    assert o.game.fruits == o.game.fruits[..2] + [o.game.fruits[2]];
  }

  /** Leaving the left edge ends the game; R then starts a new one. */
  lemma EdgeThenRestartScenario()
    ensures var s := Playing([Cell(80, 80), Cell(80, 0), Cell(0, 0)]).(direction := Dir(-1, 0),
                       snake := [Cell(0, 40), Cell(20, 40), Cell(40, 40)]);
      var over := MoveSnake(s, []).game;
      var restarted := KeyDown(over, KeyR, [Draw(0, 0), Draw(1, 0), Draw(2, 0)]).game;
      && over.gameOver
      && restarted.score == 0 && restarted.Running() && restarted.direction == Dir(1, 0)
      && restarted.snake == [Cell(40, 40), Cell(20, 40), Cell(0, 40)]
      && restarted.fruits == [Cell(0, 0), Cell(20, 0), Cell(40, 0)]
  {
    var snake := InitialSnake(100, 100);
    assert snake == [Cell(40, 40), Cell(20, 40), Cell(0, 40)];
    assert FreeCount(snake, [Draw(0, 0), Draw(1, 0), Draw(2, 0)]) == 3;
  }

  /**
   * Up then Left inside one step interval: each key is perpendicular to the
   * direction pending at that moment, so both are taken, and the next step
   * drives the head into the segment behind it.
   */
  lemma QuickDoubleTurnScenario()
    ensures var s := Playing([Cell(80, 80), Cell(80, 0), Cell(0, 0)]);
      var up := KeyDown(s, ArrowUp, []).game;
      var left := KeyDown(up, ArrowLeft, []).game;
      && left.direction == Reverse(s.direction)
      && MoveSnake(left, []).game.gameOver
  {
  }

  /**
   * Fruits are placed without looking at each other; when two share a cell
   * only the first is eaten and the other is left under the new head.
   */
  lemma CoincidingFruitsScenario(s: GameState, draws: seq<Draw>)
    requires s == Playing([Cell(60, 40), Cell(60, 40), Cell(80, 0)]) && draws == [Draw(0, 0)]
    ensures MoveReady(s, draws)
    ensures var o := MoveSnake(s, draws);
      && o.game.score == 1
      && o.game.fruits == [Cell(60, 40), Cell(80, 0), Cell(0, 0)]
      && o.game.fruits[0] == o.game.snake[0]
  {
    var head := Cell(60, 40);
    assert NextHead(s) == head;
    assert FreeCount([head] + s.snake, draws) == 1;
    assert Eats(s);
    var o := MoveSnake(s, draws);
    assert o.rest == [];
    assert RemoveFirst(s.fruits, head) == [Cell(60, 40), Cell(80, 0)];
    assert o.game.fruits == o.game.fruits[..2] + [o.game.fruits[2]];
  }
}
