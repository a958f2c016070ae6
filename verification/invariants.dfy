/**
 The shape a live snake keeps, and the facts about single operations that
 follow from it: a tick moves the head by one cell, checks it against the walls
 and the body before adding it, and only ever removes the first segment.
 */
module Invariants {
  import opened Board
  import opened Direction
  import opened Engine

  predicate AllInBounds(snake: seq<Pos>) {
    forall i :: 0 <= i < |snake| ==> InBounds(snake[i])
  }

  /** No cell is occupied by two segments. */
  predicate Distinct(snake: seq<Pos>) {
    forall i, j :: 0 <= i < j < |snake| ==> snake[i] != snake[j]
  }

  /** Each segment shares a side with the next one. */
  predicate Connected(snake: seq<Pos>) {
    forall i :: 0 <= i < |snake| - 1 ==> Adjacent(snake[i], snake[i + 1])
  }

  predicate WellFormed(snake: seq<Pos>) {
    |snake| > 0 && AllInBounds(snake) && Distinct(snake) && Connected(snake)
  }

  /**
   The invariant of every state the game reaches: a well-formed snake, food on
   the board, and the snake moving exactly when the game is not over.
   */
  predicate Valid(s: State) {
    WellFormed(s.snake) && InBounds(s.food) && s.moving == !s.gameOver
  }

  /** True iff the next tick eats the food. */
  predicate Eats(s: State)
    requires |s.snake| > 0
  {
    !Blocked(s) && NextHead(s) == s.food
  }

  lemma InitialValid(food: Pos)
    requires InBounds(food)
    ensures Valid(Initial(food))
  {
  }

  lemma HandleKeyKeepsValid(s: State, name: string)
    requires Valid(s)
    ensures Valid(HandleKey(s, name))
  {
  }

  lemma RestartValid(s: State, food: Pos)
    requires InBounds(food)
    ensures Valid(Restart(s, food))
  {
  }

  /** Appending a fresh, in-bounds neighbour of the head keeps a snake well formed. */
  lemma GrowKeepsWellFormed(snake: seq<Pos>, head: Pos)
    requires WellFormed(snake)
    requires InBounds(head) && head !in snake && Adjacent(Head(snake), head)
    ensures WellFormed(snake + [head])
  {
    var t := snake + [head];
    forall i, j | 0 <= i < j < |t|
      ensures t[i] != t[j]
    {
      if j < |snake| {
        assert t[i] == snake[i] && t[j] == snake[j];
      } else {
        assert t[i] in snake;
      }
    }
    forall i | 0 <= i < |t| - 1
      ensures Adjacent(t[i], t[i + 1])
    {
      if i < |snake| - 1 {
        assert t[i] == snake[i] && t[i + 1] == snake[i + 1];
      }
    }
  }

  /** Dropping the tail of a snake of two or more segments keeps it well formed. */
  lemma DropTailKeepsWellFormed(snake: seq<Pos>)
    requires WellFormed(snake) && |snake| > 1
    ensures WellFormed(snake[1..])
  {
    var t := snake[1..];
    forall i, j | 0 <= i < j < |t|
      ensures t[i] != t[j]
    {
      assert t[i] == snake[i + 1] && t[j] == snake[j + 1];
    }
    forall i | 0 <= i < |t| - 1
      ensures Adjacent(t[i], t[i + 1])
    {
      assert t[i] == snake[i + 1] && t[i + 1] == snake[i + 2];
    }
  }

  /** A tick from a valid state, with the fresh food drawn on the board, yields a valid state. */
  lemma StepKeepsValid(s: State, freshFood: Pos)
    requires Valid(s) && InBounds(freshFood)
    ensures Valid(Step(s, freshFood))
  {
    var r := Step(s, freshFood);
    if !Blocked(s) {
      var head := NextHead(s);
      if head == s.food {
        GrowKeepsWellFormed(s.snake, head);
        assert r.snake == s.snake + [head];
      } else if |s.snake| == 1 {
        assert r.snake == [head];
      } else {
        var body := s.snake[1..];
        DropTailKeepsWellFormed(s.snake);
        assert Head(body) == Head(s.snake);
        GrowKeepsWellFormed(body, head);
        assert r.snake == body + [head];
      }
    }
  }

  /** The snake's length is kept by a tick, or grows by exactly one when the food is eaten. */
  lemma LengthAfterStep(s: State, freshFood: Pos)
    requires |s.snake| > 0
    ensures |Step(s, freshFood).snake| == |s.snake| + (if Eats(s) then 1 else 0)
  {
  }

  /** A head at the edge of the board heading outwards ends the game and keeps snake and food. */
  lemma WallEndsGame(s: State, freshFood: Pos)
    requires |s.snake| > 0 && InBounds(Head(s.snake))
    requires FacesEdge(Head(s.snake), s.dir)
    ensures Step(s, freshFood) == s.(gameOver := true, moving := false)
  {
    LeavesBoardIffFacesEdge(Head(s.snake), s.dir);
  }

  /** A head heading into any segment of the body ends the game with the snake unchanged. */
  lemma BodyHitEndsGame(s: State, freshFood: Pos, k: int)
    requires 0 <= k < |s.snake| && s.snake[k] == NextHead(s)
    ensures Step(s, freshFood) == s.(gameOver := true, moving := false)
  {
  }

  /**
   What the reversal guard prevents: a snake whose head has just moved one cell
   in direction `d` from its neck, now heading the opposite way, would run into
   that neck on the next tick.
   */
  lemma ReverseHitsNeck(s: State, d: Dir, freshFood: Pos)
    requires |s.snake| >= 2
    requires Head(s.snake) == Move(s.snake[|s.snake| - 2], d)
    requires s.dir == Opposite(d)
    ensures NextHead(s) == s.snake[|s.snake| - 2]
    ensures Step(s, freshFood) == s.(gameOver := true, moving := false)
  {
    MoveBack(s.snake[|s.snake| - 2], d);
  }

  /** Food lying under the body cannot be eaten: the head would hit the body first. */
  lemma CoveredFoodNotEaten(s: State, freshFood: Pos)
    requires |s.snake| > 0 && s.food in s.snake
    ensures !Eats(s)
    ensures Step(s, freshFood).food == s.food
  {
  }

  /** On a valid game-over state the immediate half of restart changes nothing. */
  lemma HaltOnGameOverIsIdle(s: State)
    requires Valid(s) && s.gameOver
    ensures Halt(s) == s
  {
  }

  /**
   A four-segment snake curled into a square, heading up into its own tail:
   the tail would move away this tick, yet the tick ends the game.
   */
  lemma TailChaseEndsGame(food: Pos, freshFood: Pos)
    ensures
      var s := State([Pos(2, 2), Pos(3, 2), Pos(3, 3), Pos(2, 3)], food, Up, false, true);
      Valid(s) <==> InBounds(food)
    ensures
      var s := State([Pos(2, 2), Pos(3, 2), Pos(3, 3), Pos(2, 3)], food, Up, false, true);
      var r := Step(s, freshFood);
      r.gameOver && !r.moving && r.snake == s.snake
  {
    var s := State([Pos(2, 2), Pos(3, 2), Pos(3, 3), Pos(2, 3)], food, Up, false, true);
    assert NextHead(s) == s.snake[0];
  }

  /** A new game with the food just right of the start eats it on the first tick. */
  lemma FirstTickEats(freshFood: Pos)
    ensures Step(Initial(Pos(3, 2)), freshFood).snake == [Pos(2, 2), Pos(3, 2)]
    ensures Step(Initial(Pos(3, 2)), freshFood).food == freshFood
  {
  }

  /** A one-segment snake at the left wall heading left ends the game. */
  lemma LeftWallScenario(food: Pos, freshFood: Pos)
    ensures
      var r := Step(State([Pos(0, 2)], food, Left, false, true), freshFood);
      r.gameOver && !r.moving && r.snake == [Pos(0, 2)]
  {
  }
}
