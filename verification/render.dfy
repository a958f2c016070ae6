/**
 What the player sees: every cell of the board classified as food, snake or
 empty, and the score.
 */
module Render {
  import opened Board
  import opened Engine
  import opened Invariants
  import Capacity

  datatype Cell = Empty | SnakePart | Food

  /** The food is drawn over the snake; a cell no segment covers is empty. */
  function Classify(s: State, p: Pos): (c: Cell)
    ensures c == Food <==> p == s.food
    ensures c == SnakePart <==> p != s.food && p in s.snake
    ensures c == Empty <==> p != s.food && p !in s.snake
  {
    if p == s.food then Food
    else if p in s.snake then SnakePart
    else Empty
  }

  /**
   Draws the board row by row, left to right: each cell starts empty, becomes
   snake if some segment lies on it, and becomes food if the food does.
   */
  method RenderBoard(s: State) returns (cells: seq<Cell>)
    ensures |cells| == Size * Size
    ensures forall i :: 0 <= i < |cells| ==> cells[i] == Classify(s, CellOf(i))
  {
    cells := [];
    var y := 0;
    while y < Size
      invariant 0 <= y <= Size
      invariant |cells| == y * Size
      invariant forall i :: 0 <= i < |cells| ==> cells[i] == Classify(s, CellOf(i))
    {
      var x := 0;
      while x < Size
        invariant 0 <= x <= Size
        invariant |cells| == y * Size + x
        invariant forall i :: 0 <= i < |cells| ==> cells[i] == Classify(s, CellOf(i))
      {
        var p := Pos(x, y);
        var c := Empty;
        var k := 0;
        while k < |s.snake|
          invariant 0 <= k <= |s.snake|
          invariant c == (if p in s.snake[..k] then SnakePart else Empty)
        {
          if s.snake[k] == p {
            c := SnakePart;
          }
          assert s.snake[..k + 1] == s.snake[..k] + [s.snake[k]];
          k := k + 1;
        }
        assert s.snake[..k] == s.snake;
        if s.food == p {
          c := Food;
        }
        CodeInjective(CellOf(|cells|), p);
        cells := cells + [c];
        x := x + 1;
      }
      y := y + 1;
    }
  }

  /** The score shown under the board: one point per segment beyond the first. */
  function Score(s: State): (r: int)
    ensures r + 1 == |s.snake|
    ensures r >= 0 <==> |s.snake| > 0
  {
    |s.snake| - 1
  }

  /** A new game starts at score zero. */
  lemma InitialScore(food: Pos)
    ensures Score(Initial(food)) == 0
  {
  }

  /** In every valid state the score lies between 0 and one less than the number of cells. */
  lemma ScoreInRange(s: State)
    requires Valid(s)
    ensures 0 <= Score(s) < Size * Size
  {
    Capacity.SnakeFitsBoard(s.snake);
  }

  /** A tick raises the score by one when it eats the food and leaves it unchanged otherwise. */
  lemma ScoreAfterStep(s: State, freshFood: Pos)
    requires |s.snake| > 0
    ensures Score(Step(s, freshFood)) == Score(s) + (if Eats(s) then 1 else 0)
  {
    LengthAfterStep(s, freshFood);
  }
}
