/**
 * The step gate of the animation-frame callback, and the sequence of
 * events (key presses and frames) the browser delivers to the game.
 */
module Loop {
  import opened Board
  import opened Fruit
  import opened Game
  import opened Input

  /** Milliseconds between simulation steps. */
  const Speed: nat := 80

  /** A step is due on the very first frame (timer at 0) or once Speed has elapsed. */
  predicate Due(s: GameState, timestamp: nat) {
    s.lastMoveTime == 0 || timestamp - s.lastMoveTime >= Speed
  }

  /** What a frame needs to be served: a step it runs must be able to run. */
  predicate FrameReady(s: GameState, timestamp: nat, draws: seq<Draw>) {
    Due(s, timestamp) && s.Running() ==> MoveReady(s, draws)
  }

  /**
   * The state-changing part of one animation frame: at most one step, run
   * only when due and neither paused nor over. A due frame restarts the
   * timer whether or not it stepped.
   */
  function GameLoop(s: GameState, timestamp: nat, draws: seq<Draw>): (o: Outcome)
    requires FrameReady(s, timestamp, draws)
    ensures o.game.lastMoveTime == if Due(s, timestamp) then timestamp else s.lastMoveTime
    ensures !Due(s, timestamp) ==> o == Outcome(s, draws)
    ensures Due(s, timestamp) && !s.Running() ==> o == Outcome(s.(lastMoveTime := timestamp), draws)
    ensures Due(s, timestamp) && s.Running() ==>
      var step := MoveSnake(s, draws);
      o == Outcome(step.game.(lastMoveTime := timestamp), step.rest)
  {
    if s.lastMoveTime == 0 || timestamp - s.lastMoveTime >= Speed then
      var stepped := if !s.paused && !s.gameOver then MoveSnake(s, draws) else Outcome(s, draws);
      Outcome(stepped.game.(lastMoveTime := timestamp), stepped.rest)
    else
      Outcome(s, draws)
  }

  datatype Event = Press(key: Key) | AnimationFrame(timestamp: nat)

  predicate EventReady(s: GameState, e: Event, draws: seq<Draw>) {
    match e
    case Press(key) => KeyReady(s, key, draws)
    case AnimationFrame(t) => FrameReady(s, t, draws)
  }

  function Handle(s: GameState, e: Event, draws: seq<Draw>): Outcome
    requires EventReady(s, e, draws)
  {
    match e
    case Press(key) => KeyDown(s, key, draws)
    case AnimationFrame(t) => GameLoop(s, t, draws)
  }

  /** Every event of the sequence can be served in the state the earlier ones leave. */
  predicate Feasible(s: GameState, events: seq<Event>, draws: seq<Draw>)
    decreases |events|
  {
    events == [] ||
    (EventReady(s, events[0], draws) &&
     var o := Handle(s, events[0], draws);
     Feasible(o.game, events[1..], o.rest))
  }

  /**
   * The events in order. The canvas size never changes and the random
   * source is only ever consumed from the front.
   */
  function Run(s: GameState, events: seq<Event>, draws: seq<Draw>): (o: Outcome)
    requires Feasible(s, events, draws)
    ensures o.game.width == s.width && o.game.height == s.height
    ensures IsSuffix(o.rest, draws)
    decreases |events|
  {
    if events == [] then Outcome(s, draws)
    else
      var first := Handle(s, events[0], draws);
      var o := Run(first.game, events[1..], first.rest);
      SuffixTransitive(o.rest, first.rest, draws);
      o
  }
}
