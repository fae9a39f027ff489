/**
 * Fruit placement. `spawnFruit` draws a random grid cell and draws again
 * while the cell lies on the snake; `spawnFruits` places three fruits at
 * the start of a game. The random source is a finite sequence of draws;
 * the requirement that it holds enough draws off the snake stands for the
 * retry terminating.
 */
module Fruit {
  import opened Board

  /** `rest` is what remains of `draws` after some draws were consumed from the front. */
  predicate IsSuffix(rest: seq<Draw>, draws: seq<Draw>) {
    |rest| <= |draws| && rest == draws[|draws| - |rest|..]
  }

  /** The number of draws that land off the snake. */
  function FreeCount(snake: seq<Cell>, draws: seq<Draw>): (n: nat)
    ensures n <= |draws|
  {
    if draws == [] then 0
    else (if DrawCell(draws[0]) in snake then 0 else 1) + FreeCount(snake, draws[1..])
  }

  lemma SuffixStaysValid(rest: seq<Draw>, draws: seq<Draw>, width: nat, height: nat)
    requires IsSuffix(rest, draws) && ValidDraws(draws, width, height)
    ensures ValidDraws(rest, width, height)
  {
    forall i | 0 <= i < |rest|
      ensures ValidDraw(rest[i], width, height)
    {
      assert rest[i] == draws[|draws| - |rest| + i];
    }
  }

  lemma SuffixTransitive(a: seq<Draw>, b: seq<Draw>, c: seq<Draw>)
    requires IsSuffix(a, b) && IsSuffix(b, c)
    ensures IsSuffix(a, c)
  {
  }

  /**
   * The retry's result: `fruit` comes from the last draw consumed (the one
   * before `rest`), is off the snake, and every draw before it landed on
   * the snake.
   */
  predicate Retried(fruit: Cell, rest: seq<Draw>, snake: seq<Cell>, draws: seq<Draw>) {
    && IsSuffix(rest, draws) && |rest| < |draws|
    && fruit == DrawCell(draws[|draws| - |rest| - 1])
    && fruit !in snake
    && (forall j :: 0 <= j < |draws| - |rest| - 1 ==> DrawCell(draws[j]) in snake)
  }

  /**
   * One fruit: draws are consumed from the front until one lands off the
   * snake, which becomes the fruit.
   */
  function SpawnFruit(snake: seq<Cell>, draws: seq<Draw>, width: nat, height: nat): (o: (Cell, seq<Draw>))
    requires FreeCount(snake, draws) > 0
    requires ValidDraws(draws, width, height)
    ensures Retried(o.0, o.1, snake, draws)
    ensures Placed(o.0, width, height)
    ensures FreeCount(snake, o.1) == FreeCount(snake, draws) - 1
    decreases |draws|
  {
    var fruit := DrawCell(draws[0]);
    if Collides(snake, fruit) then
      SuffixStaysValid(draws[1..], draws, width, height);
      var o := SpawnFruit(snake, draws[1..], width, height);
      assert forall j :: 1 <= j < |draws| ==> draws[j] == draws[1..][j - 1];
      o
    else
      DrawIsPlaced(draws[0], width, height);
      (fruit, draws[1..])
  }

  /** The three fruits of a new game, none on the snake (they may coincide with each other). */
  function SpawnFruits(snake: seq<Cell>, draws: seq<Draw>, width: nat, height: nat): (o: (seq<Cell>, seq<Draw>))
    requires FreeCount(snake, draws) >= 3
    requires ValidDraws(draws, width, height)
    ensures var (fruits, rest) := o;
      && |fruits| == 3
      && (forall i :: 0 <= i < |fruits| ==> fruits[i] !in snake && Placed(fruits[i], width, height))
      && IsSuffix(rest, draws)
      && FreeCount(snake, rest) == FreeCount(snake, draws) - 3
  {
    var first := SpawnFruit(snake, draws, width, height);
    SuffixStaysValid(first.1, draws, width, height);
    var second := SpawnFruit(snake, first.1, width, height);
    SuffixStaysValid(second.1, first.1, width, height);
    var third := SpawnFruit(snake, second.1, width, height);
    SuffixTransitive(second.1, first.1, draws);
    SuffixTransitive(third.1, second.1, draws);
    ([first.0, second.0, third.0], third.1)
  }
}
