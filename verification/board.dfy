/**
 The playing field of the snake game: a square grid of `Size` x `Size` cells
 addressed by integer coordinates, x growing to the right and y growing down.
 */
module Board {

  /** Side length of the square board. */
  const Size: int := 15

  /** A cell of the board (or a point just outside it). */
  datatype Pos = Pos(x: int, y: int)

  /** True iff `p` lies on the board, on both axes. */
  predicate InBounds(p: Pos) {
    0 <= p.x < Size && 0 <= p.y < Size
  }

  /** True iff `p` and `q` share a side: they differ by exactly one on exactly one axis. */
  predicate Adjacent(p: Pos, q: Pos) {
    || (p.x == q.x && (p.y - q.y == 1 || q.y - p.y == 1))
    || (p.y == q.y && (p.x - q.x == 1 || q.x - p.x == 1))
  }

  /** Row-major index of a cell, the order in which the board is drawn. */
  function Code(p: Pos): int {
    p.y * Size + p.x
  }

  /**
   Row-major indexing is a bijection between the board and [0, Size * Size):
   `CodeInRange` and `CodeInjective` below, with `CellOf` as its inverse.
   */
  lemma CodeInRange(p: Pos)
    requires InBounds(p)
    ensures 0 <= Code(p) < Size * Size
  {
  }

  lemma CodeInjective(p: Pos, q: Pos)
    requires InBounds(p) && InBounds(q)
    ensures Code(p) == Code(q) ==> p == q
  {
  }

  /** The cell drawn at row-major index `i`. */
  function CellOf(i: int): (p: Pos)
    requires 0 <= i < Size * Size
    ensures InBounds(p) && Code(p) == i
  {
    Pos(i % Size, i / Size)
  }
}
