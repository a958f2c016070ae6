/**
 How long a snake can get: segments are distinct cells of the board, so there
 are at most `Size * Size` of them.
 */
module Capacity {
  import opened Board
  import opened Invariants

  /** The row-major index of every segment, in order. */
  function Codes(snake: seq<Pos>): (cs: seq<int>)
    ensures |cs| == |snake|
    ensures forall i :: 0 <= i < |snake| ==> cs[i] == Code(snake[i])
  {
    seq(|snake|, i requires 0 <= i < |snake| => Code(snake[i]))
  }

  /** A sequence without repeats has as many distinct elements as it is long. */
  lemma {:induction false} DistinctElements(xs: seq<int>)
    requires forall i, j :: 0 <= i < j < |xs| ==> xs[i] != xs[j]
    ensures |set x | x in xs| == |xs|
  {
    if |xs| > 0 {
      var init := xs[..|xs| - 1];
      var last := xs[|xs| - 1];
      DistinctElements(init);
      assert (set x | x in xs) == (set x | x in init) + {last};
      assert last !in (set x | x in init);
    }
  }

  /** At most `n` integers fit in [0, n). */
  lemma {:induction false} Pigeonhole(xs: set<int>, n: nat)
    requires forall x :: x in xs ==> 0 <= x < n
    ensures |xs| <= n
  {
    if n == 0 {
      assert forall x :: x !in xs;
      assert xs == {};
    } else {
      var rest := xs - {n - 1};
      Pigeonhole(rest, n - 1);
      if n - 1 in xs {
        assert xs == rest + {n - 1};
      } else {
        assert xs == rest;
      }
    }
  }

  /** A snake of distinct segments on the board has at most `Size * Size` segments. */
  lemma SnakeFitsBoard(snake: seq<Pos>)
    requires AllInBounds(snake) && Distinct(snake)
    ensures |snake| <= Size * Size
  {
    var cs := Codes(snake);
    forall i, j | 0 <= i < j < |cs|
      ensures cs[i] != cs[j]
    {
      CodeInjective(snake[i], snake[j]);
    }
    DistinctElements(cs);
    var elems := set x | x in cs;
    forall x | x in elems
      ensures 0 <= x < Size * Size
    {
      var k :| 0 <= k < |cs| && cs[k] == x;
      CodeInRange(snake[k]);
    }
    Pigeonhole(elems, Size * Size);
  }
}
