/**
 A game as a sequence of events, each applied to the latest state: key presses,
 timer ticks and clicks on the restart button. The tick timer runs only while
 the game is not over, and the restart button exists only once it is, so those
 two events do nothing outside those times. The random food drawn by a tick or
 a restart travels with the event.
 */
module Session {
  import opened Board
  import opened Direction
  import opened Engine
  import opened Invariants
  import Render

  datatype Event =
    | KeyDown(name: string)
    | Tick(freshFood: Pos)
    | RestartClick(freshFood: Pos)

  /** The food an event draws lies on the board (keys draw none). */
  predicate DrawsOnBoard(e: Event) {
    match e
    case KeyDown(_) => true
    case Tick(f) => InBounds(f)
    case RestartClick(f) => InBounds(f)
  }

  predicate AllDrawOnBoard(events: seq<Event>) {
    forall i :: 0 <= i < |events| ==> DrawsOnBoard(events[i])
  }

  /** The effect of one event on the game. */
  function Apply(s: State, e: Event): (r: State)
    requires |s.snake| > 0
    ensures |r.snake| > 0
    ensures e.KeyDown? ==> r == HandleKey(s, e.name)
    ensures e.Tick? && !s.gameOver ==> r == Step(s, e.freshFood)
    ensures e.Tick? && s.gameOver ==> r == s
    ensures e.RestartClick? && !s.gameOver ==> r == s
    ensures e.RestartClick? && s.gameOver ==> r == Initial(e.freshFood)
  {
    match e
    case KeyDown(name) => HandleKey(s, name)
    case Tick(f) => if s.gameOver then s else Step(s, f)
    case RestartClick(f) =>
      if s.gameOver then
        RestartIsInitial(s, f);
        Restart(s, f)
      else s
  }

  lemma ApplyKeepsValid(s: State, e: Event)
    requires Valid(s) && DrawsOnBoard(e)
    ensures Valid(Apply(s, e))
  {
    match e
    case KeyDown(name) => HandleKeyKeepsValid(s, name);
    case Tick(f) =>
      if !s.gameOver {
        StepKeepsValid(s, f);
      }
    case RestartClick(f) => RestartValid(s, f);
  }

  /** The state after all of `events`, in order. */
  function Run(s: State, events: seq<Event>): (r: State)
    requires |s.snake| > 0
    ensures |r.snake| > 0
    decreases |events|
  {
    if |events| == 0 then s
    else Run(Apply(s, events[0]), events[1..])
  }

  /** Every event sequence whose food draws land on the board keeps a valid state valid. */
  lemma {:induction false} RunKeepsValid(s: State, events: seq<Event>)
    requires Valid(s) && AllDrawOnBoard(events)
    ensures Valid(Run(s, events))
    decreases |events|
  {
    if |events| > 0 {
      ApplyKeepsValid(s, events[0]);
      RunKeepsValid(Apply(s, events[0]), events[1..]);
    }
  }

  /** Every state a game reaches from its start is valid and its score fits the board. */
  lemma ReachableValid(food: Pos, events: seq<Event>)
    requires InBounds(food) && AllDrawOnBoard(events)
    ensures Valid(Run(Initial(food), events))
    ensures 0 <= Render.Score(Run(Initial(food), events)) < Size * Size
  {
    InitialValid(food);
    RunKeepsValid(Initial(food), events);
    Render.ScoreInRange(Run(Initial(food), events));
  }

  /** Without a restart the snake never gets shorter. */
  lemma {:induction false} NoRestartNoShrink(s: State, events: seq<Event>)
    requires |s.snake| > 0
    requires forall i :: 0 <= i < |events| ==> !events[i].RestartClick?
    ensures |Run(s, events).snake| >= |s.snake|
    decreases |events|
  {
    if |events| > 0 {
      var e := events[0];
      if e.Tick? && !s.gameOver {
        LengthAfterStep(s, e.freshFood);
      }
      NoRestartNoShrink(Apply(s, e), events[1..]);
    }
  }

  /**
   Two arrow keys between ticks each pass the guard against the direction the
   previous one set, so together they turn the snake straight back: heading
   right, up then left sends the head into its neck.
   */
  lemma DoubleTurnReversal(food: Pos, freshFood: Pos)
    ensures
      var s := State([Pos(2, 2), Pos(3, 2)], food, Right, false, true);
      var r := Run(s, [KeyDown("ArrowUp"), KeyDown("ArrowLeft"), Tick(freshFood)]);
      r.gameOver && !r.moving && r.snake == s.snake && r.dir == Left
  {
    var s := State([Pos(2, 2), Pos(3, 2)], food, Right, false, true);
    var evs := [KeyDown("ArrowUp"), KeyDown("ArrowLeft"), Tick(freshFood)];
    var s1 := Apply(s, evs[0]);
    assert s1 == s.(dir := Up);
    var s2 := Apply(s1, evs[1..][0]);
    assert s2 == s.(dir := Left);
    assert NextHead(s2) == s2.snake[0];
    var s3 := Apply(s2, evs[1..][1..][0]);
    assert s3 == s2.(gameOver := true, moving := false);
    assert evs[1..][1..][1..] == [];
    assert Run(s2, evs[1..][1..]) == Run(s3, []);
  }

  /** Once the game is over, key presses and ticks leave the state exactly as it is. */
  lemma {:induction false} GameOverIsSticky(s: State, events: seq<Event>)
    requires Valid(s) && s.gameOver
    requires forall i :: 0 <= i < |events| ==> !events[i].RestartClick?
    ensures Run(s, events) == s
    decreases |events|
  {
    if |events| > 0 {
      assert Apply(s, events[0]) == s;
      GameOverIsSticky(s, events[1..]);
    }
  }
}
