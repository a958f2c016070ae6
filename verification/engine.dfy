/**
 The game engine: the state the game component keeps and the pure rules that
 change it. The key handler, the movement tick and restart are functions from
 state to state; the random food cell is an argument of the operations that draw one.
 */
module Engine {
  import opened Board
  import opened Direction

  /** Snake is tail first, head last. */
  datatype State = State(snake: seq<Pos>, food: Pos, dir: Dir, gameOver: bool, moving: bool)

  /** The cell a new game starts from. */
  const Start: Pos := Pos(2, 2)

  /** The state a game starts in, given the food cell drawn for it. */
  function Initial(food: Pos): (s: State)
    ensures |s.snake| == 1 && Head(s.snake) == Start
    ensures s.dir == Right && s.food == food
    ensures !s.gameOver && s.moving
  {
    State([Start], food, Right, false, true)
  }

  function Head(snake: seq<Pos>): Pos
    requires |snake| > 0
  {
    snake[|snake| - 1]
  }

  /**
   The key handler: an arrow key turns the snake unless it asks for the exact
   reverse of the current direction; any other key, and every key while the
   snake is not moving, leaves the state alone.
   */
  function HandleKey(s: State, name: string): (r: State)
    ensures r.snake == s.snake && r.food == s.food
    ensures r.gameOver == s.gameOver && r.moving == s.moving
    ensures r.dir != Opposite(s.dir)
    ensures !s.moving || ParseKey(name) == Other ==> r == s
    ensures ParseKey(name).Arrow? && ParseKey(name).dir == Opposite(s.dir) ==> r == s
    ensures s.moving && ParseKey(name).Arrow? && ParseKey(name).dir != Opposite(s.dir) ==>
              r.dir == ParseKey(name).dir
  {
    if !s.moving then s
    else
      match ParseKey(name)
      case Arrow(d) => if s.dir != Opposite(d) then s.(dir := d) else s
      case Other => s
  }

  /** The cell the head moves into on the next tick. */
  function NextHead(s: State): Pos
    requires |s.snake| > 0
  {
    Move(Head(s.snake), s.dir)
  }

  /** A scan of the body, front to back, for a segment equal to `p`. */
  function Occupies(snake: seq<Pos>, p: Pos): (r: bool)
    ensures r <==> p in snake
  {
    if |snake| == 0 then false
    else snake[0] == p || Occupies(snake[1..], p)
  }

  /** True iff the next move runs into a wall or into any current segment, the tail included. */
  predicate Blocked(s: State)
    requires |s.snake| > 0
  {
    !InBounds(NextHead(s)) || NextHead(s) in s.snake
  }

  /**
   One movement tick. A head that would leave the board or land on the body
   ends the game and keeps the snake; otherwise the head is appended and, unless
   it landed on the food, the tail is dropped. Eating draws `freshFood`.
   */
  function Step(s: State, freshFood: Pos): (r: State)
    requires |s.snake| > 0
    ensures r.dir == s.dir
    ensures Blocked(s) ==> r == s.(gameOver := true, moving := false)
    ensures !Blocked(s) ==>
              && r.gameOver == s.gameOver && r.moving == s.moving
              && |r.snake| > 0 && Head(r.snake) == NextHead(s)
    ensures !Blocked(s) && NextHead(s) == s.food ==>
              && |r.snake| == |s.snake| + 1
              && r.snake[..|s.snake|] == s.snake
              && r.food == freshFood
    ensures !Blocked(s) && NextHead(s) != s.food ==>
              && |r.snake| == |s.snake|
              && r.snake[..|s.snake| - 1] == s.snake[1..]
              && r.food == s.food
  {
    var head := NextHead(s);
    if !InBounds(head) || Occupies(s.snake, head) then
      s.(gameOver := true, moving := false)
    else if head == s.food then
      s.(snake := s.snake + [head], food := freshFood)
    else
      s.(snake := s.snake[1..] + [head])
  }

  /** The first half of restart: ticking and steering stop at once. */
  function Halt(s: State): (r: State)
    ensures !r.moving
    ensures r.snake == s.snake && r.food == s.food && r.dir == s.dir && r.gameOver == s.gameOver
  {
    s.(moving := false)
  }

  /** The state restart ends in once its delay has passed: nothing of the old game survives. */
  function Restart(s: State, food: Pos): (r: State)
    ensures r.snake == [Pos(2, 2)] && r.dir == Right && r.food == food
    ensures !r.gameOver && r.moving
  {
    State([Pos(2, 2)], food, Right, false, true)
  }

  /** Restarting lands in exactly the state a fresh game starts in. */
  lemma RestartIsInitial(s: State, food: Pos)
    ensures Restart(s, food) == Initial(food)
  {
  }
}
