/**
 * The keydown handler: arrow keys steer while the game runs, P toggles the
 * pause flag, R resumes a paused game and restarts a finished one.
 */
module Input {
  import opened Board
  import opened Game

  datatype Key = ArrowUp | ArrowDown | ArrowLeft | ArrowRight | KeyP | KeyR | OtherKey
  {
    predicate IsArrow() {
      ArrowUp? || ArrowDown? || ArrowLeft? || ArrowRight?
    }
  }

  /** The direction an arrow key asks for (y grows downwards on the canvas). */
  function Heading(key: Key): Dir
    requires key.IsArrow()
  {
    match key
    case ArrowUp => Dir(0, -1)
    case ArrowDown => Dir(0, 1)
    case ArrowLeft => Dir(-1, 0)
    case ArrowRight => Dir(1, 0)
  }

  /**
   * The switch on the key code: a vertical key is taken only when the snake
   * moves horizontally, a horizontal key only when it moves vertically.
   */
  function Steer(d: Dir, key: Key): (r: Dir)
    ensures IsUnit(d) ==> IsUnit(r)
    ensures IsUnit(d) ==> r != Reverse(d)
    ensures r != d ==> key.IsArrow() && r == Heading(key)
  {
    match key
    case ArrowUp => if d.y == 0 then Dir(0, -1) else d
    case ArrowDown => if d.y == 0 then Dir(0, 1) else d
    case ArrowLeft => if d.x == 0 then Dir(-1, 0) else d
    case ArrowRight => if d.x == 0 then Dir(1, 0) else d
    case _ => d
  }

  /**
   * For a unit direction, an arrow key takes effect exactly when it asks for
   * a perpendicular direction; a reversal or a repeat changes nothing.
   */
  lemma SteerTurnsOnlyPerpendicular(d: Dir, key: Key)
    requires IsUnit(d) && key.IsArrow()
    ensures Steer(d, key) != d <==> Perpendicular(d, Heading(key))
    ensures Perpendicular(d, Heading(key)) ==> Steer(d, key) == Heading(key)
    ensures Heading(key) == Reverse(d) || Heading(key) == d ==> Steer(d, key) == d
  {
  }

  /** A restart can be served if it is asked for. */
  predicate KeyReady(s: GameState, key: Key, draws: seq<Draw>) {
    key == KeyR && s.gameOver ==> InitReady(s, draws)
  }

  /**
   * One key press. The four steps run in the handler's order: steering
   * (only while neither paused nor over), the pause toggle, resume, restart.
   */
  function KeyDown(s: GameState, key: Key, draws: seq<Draw>): (o: Outcome)
    requires KeyReady(s, key, draws)
    ensures key.IsArrow() && s.Running() ==> o == Outcome(s.(direction := Steer(s.direction, key)), draws)
    ensures key.IsArrow() && !s.Running() ==> o == Outcome(s, draws)
    ensures key == KeyP ==> o == Outcome(s.(paused := !s.paused), draws)
    ensures key == KeyR && !s.gameOver ==> o == Outcome(s.(paused := false), draws)
    ensures key == KeyR && s.gameOver ==> o == Init(s, draws)
    ensures key == OtherKey ==> o == Outcome(s, draws)
    ensures !(key == KeyR && s.gameOver) ==>
      && o.rest == draws
      && o.game.snake == s.snake && o.game.fruits == s.fruits && o.game.score == s.score
      && o.game.gameOver == s.gameOver
  {
    var steered := if !s.paused && !s.gameOver then s.(direction := Steer(s.direction, key)) else s;
    var toggled := if key == KeyP then steered.(paused := !steered.paused) else steered;
    var resumed := if key == KeyR && toggled.paused then toggled.(paused := false) else toggled;
    if key == KeyR && resumed.gameOver then Init(resumed, draws) else Outcome(resumed, draws)
  }

  /** Pressing P twice restores the state exactly. */
  lemma PauseTwiceRestores(s: GameState, draws: seq<Draw>)
    ensures var once := KeyDown(s, KeyP, draws);
      KeyDown(once.game, KeyP, once.rest) == Outcome(s, draws)
  {
  }

  /** No key press ever leaves the four unit directions. */
  lemma KeyDownKeepsUnit(s: GameState, key: Key, draws: seq<Draw>)
    requires KeyReady(s, key, draws) && IsUnit(s.direction)
    ensures IsUnit(KeyDown(s, key, draws).game.direction)
  {
  }

  /** Only a running game takes a new direction from a key other than a restart. */
  lemma DirectionChangesOnlyWhileRunning(s: GameState, key: Key, draws: seq<Draw>)
    requires KeyReady(s, key, draws)
    requires KeyDown(s, key, draws).game.direction != s.direction
    ensures (key.IsArrow() && s.Running()) || (key == KeyR && s.gameOver)
  {
  }
}
