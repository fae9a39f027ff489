/**
 * What every state reachable from a new game on a canvas at least 80 x 1
 * satisfies: a self-avoiding, grid-aligned snake
 * inside the canvas, three fruits on the board, a unit direction, and a
 * score that counts exactly the segments grown beyond the opening three.
 */
module Invariants {
  import opened Board
  import opened Game
  import opened Input
  import opened Loop

  /** A canvas wide enough for the opening snake (its tail starts two blocks left of centre). */
  predicate RoomyBoard(width: nat, height: nat) {
    width >= 4 * BlockSize && height >= 1
  }

  predicate Inv(s: GameState) {
    && RoomyBoard(s.width, s.height)
    && |s.snake| >= 3
    && Distinct(s.snake)
    && (forall i :: 0 <= i < |s.snake| ==> OnBoard(s.snake[i], s.width, s.height))
    && |s.fruits| == 3
    && (forall i :: 0 <= i < |s.fruits| ==> OnBoard(s.fruits[i], s.width, s.height))
    && IsUnit(s.direction)
    && s.score == |s.snake| - 3
  }

  lemma InitEstablishesInv(s: GameState, draws: seq<Draw>)
    requires RoomyBoard(s.width, s.height) && InitReady(s, draws)
    ensures Inv(Init(s, draws).game)
  {
    var g := Init(s, draws).game;
    forall i | 0 <= i < |g.fruits|
      ensures OnBoard(g.fruits[i], g.width, g.height)
    {
      assert Placed(g.fruits[i], g.width, g.height);
    }
  }

  /** A successful step keeps the segments pairwise distinct: the head is new and the rest is old. */
  lemma PrependKeepsDistinct(head: Cell, body: seq<Cell>)
    requires Distinct(body) && head !in body
    ensures Distinct([head] + body)
  {
    var cells := [head] + body;
    forall i, j | 0 <= i < j < |cells|
      ensures cells[i] != cells[j]
    {
      if i == 0 {
        assert cells[j] == body[j - 1];
      } else {
        assert cells[i] == body[i - 1] && cells[j] == body[j - 1];
      }
    }
  }

  /** A step onto a fruit keeps the invariant: one more segment, one more point, three fruits. */
  lemma EatPreservesInv(s: GameState, draws: seq<Draw>)
    requires Inv(s) && MoveReady(s, draws) && Eats(s)
    ensures Inv(MoveSnake(s, draws).game)
  {
    var head := NextHead(s);
    AdvanceKeepsAligned(s.snake[0], s.direction);
    PrependKeepsDistinct(head, s.snake);
    var g := MoveSnake(s, draws).game;
    assert g.snake == [head] + s.snake;
    RemoveFirstMultiset(s.fruits, head);
    forall i | 0 <= i < |g.fruits|
      ensures OnBoard(g.fruits[i], g.width, g.height)
    {
      if i < 2 {
        assert g.fruits[i] == g.fruits[..2][i];
        assert g.fruits[i] in multiset(RemoveFirst(s.fruits, head));
      }
    }
  }

  /** A step off every fruit keeps the invariant: the head is new and the tail is dropped. */
  lemma PlainStepPreservesInv(s: GameState, draws: seq<Draw>)
    requires Inv(s) && MoveReady(s, draws)
    requires !OutOfBounds(NextHead(s), s.width, s.height) && NextHead(s) !in s.snake && NextHead(s) !in s.fruits
    ensures Inv(MoveSnake(s, draws).game)
  {
    var head := NextHead(s);
    AdvanceKeepsAligned(s.snake[0], s.direction);
    var body := s.snake[..|s.snake| - 1];
    assert Distinct(body) by {
      forall i, j | 0 <= i < j < |body|
        ensures body[i] != body[j]
      {
        assert body[i] == s.snake[i] && body[j] == s.snake[j];
      }
    }
    assert head !in body by {
      forall i | 0 <= i < |body|
        ensures body[i] != head
      {
        assert body[i] == s.snake[i];
      }
    }
    PrependKeepsDistinct(head, body);
    var snake := MoveSnake(s, draws).game.snake;
    assert snake == [head] + body;
    forall i | 0 <= i < |snake|
      ensures OnBoard(snake[i], s.width, s.height)
    {
      if i > 0 {
        assert snake[i] == s.snake[i - 1];
      }
    }
  }

  lemma MoveSnakePreservesInv(s: GameState, draws: seq<Draw>)
    requires Inv(s) && MoveReady(s, draws)
    ensures Inv(MoveSnake(s, draws).game)
  {
    var head := NextHead(s);
    if OutOfBounds(head, s.width, s.height) || head in s.snake {
    } else if head in s.fruits {
      EatPreservesInv(s, draws);
    } else {
      PlainStepPreservesInv(s, draws);
    }
  }

  lemma KeyDownPreservesInv(s: GameState, key: Key, draws: seq<Draw>)
    requires Inv(s) && KeyReady(s, key, draws)
    ensures Inv(KeyDown(s, key, draws).game)
  {
    if key == KeyR && s.gameOver {
      InitEstablishesInv(s, draws);
    } else {
      KeyDownKeepsUnit(s, key, draws);
    }
  }

  lemma GameLoopPreservesInv(s: GameState, timestamp: nat, draws: seq<Draw>)
    requires Inv(s) && FrameReady(s, timestamp, draws)
    ensures Inv(GameLoop(s, timestamp, draws).game)
  {
    if Due(s, timestamp) && s.Running() {
      MoveSnakePreservesInv(s, draws);
    }
  }

  /**
   * Every state reachable by key presses and frames satisfies the
   * invariant; in particular no two segments ever share a cell.
   */
  lemma {:induction false} RunPreservesInv(s: GameState, events: seq<Event>, draws: seq<Draw>)
    requires Inv(s) && Feasible(s, events, draws)
    ensures Inv(Run(s, events, draws).game)
    ensures Distinct(Run(s, events, draws).game.snake)
    decreases |events|
  {
    if events != [] {
      var first := Handle(s, events[0], draws);
      match events[0] {
        case Press(key) => KeyDownPreservesInv(s, key, draws);
        case AnimationFrame(t) => GameLoopPreservesInv(s, t, draws);
      }
      RunPreservesInv(first.game, events[1..], first.rest);
    }
  }

  /** The game as the page starts it satisfies the invariant on any roomy canvas. */
  lemma StartEstablishesInv(width: nat, height: nat, draws: seq<Draw>)
    requires RoomyBoard(width, height) && InitReady(Blank(width, height), draws)
    ensures Inv(Init(Blank(width, height), draws).game)
    ensures Init(Blank(width, height), draws).game.lastMoveTime == 0
  {
    InitEstablishesInv(Blank(width, height), draws);
  }

  /**
   * The length rule of a completed step: one longer exactly when the head
   * lands on a fruit, otherwise unchanged; the score moves with the length.
   */
  lemma StepLengthAndScore(s: GameState, draws: seq<Draw>)
    requires MoveReady(s, draws)
    requires !OutOfBounds(NextHead(s), s.width, s.height) && NextHead(s) !in s.snake
    ensures var g := MoveSnake(s, draws).game;
      && |g.snake| == |s.snake| + (if NextHead(s) in s.fruits then 1 else 0)
      && g.score == s.score + (if NextHead(s) in s.fruits then 1 else 0)
      && |g.fruits| == |s.fruits|
      && g.gameOver == s.gameOver
  {
  }
}
