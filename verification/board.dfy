/** Grid utilities and food placement: bounds, movement, the set of free
    cells and the random choice of a new food cell. */
module Board {
  import opened Types
  import opened Constants

  /** The number of cells on the board. */
  const AREA: int := GRID_SIZE * GRID_SIZE

  predicate InBounds(p: Point)
  {
    0 <= p.x < GRID_SIZE && 0 <= p.y < GRID_SIZE
  }

  /** The cell one step from `p` in direction `d`. */
  function Move(p: Point, d: Direction): Point
  {
    Point(p.x + Delta(d).x, p.y + Delta(d).y)
  }

  predicate Distinct(s: seq<Point>)
  {
    forall i, j :: 0 <= i < j < |s| ==> s[i] != s[j]
  }

  predicate AllInBounds(s: seq<Point>)
  {
    forall i :: 0 <= i < |s| ==> InBounds(s[i])
  }

  /** The cells of row `y`, left to right. */
  function Row(y: int): (row: seq<Point>)
    ensures |row| == GRID_SIZE && Distinct(row)
    ensures forall p :: p in row <==> 0 <= p.x < GRID_SIZE && p.y == y
  {
    var row := seq(GRID_SIZE, x => Point(x, y));
    assert forall p: Point | 0 <= p.x < GRID_SIZE && p.y == y :: row[p.x] == p;
    row
  }

  /** Two repeat-free sequences with no cell in common concatenate to a repeat-free one. */
  lemma DistinctConcat(a: seq<Point>, b: seq<Point>)
    requires Distinct(a) && Distinct(b)
    requires forall p :: p in a ==> p !in b
    ensures Distinct(a + b)
  {
    forall i, j | 0 <= i < j < |a + b|
      ensures (a + b)[i] != (a + b)[j]
    {
      if j >= |a| {
        assert (a + b)[j] == b[j - |a|];
        if i < |a| {
          assert (a + b)[i] == a[i] && a[i] in a;
        }
      }
    }
  }

  /** The cells of the first `n` rows, row by row. */
  function Rows(n: nat): (cells: seq<Point>)
    ensures |cells| == n * GRID_SIZE && Distinct(cells)
    ensures forall p :: p in cells <==> 0 <= p.x < GRID_SIZE && 0 <= p.y < n
  {
    if n == 0 then []
    else
      var upper, row := Rows(n - 1), Row(n - 1);
      DistinctConcat(upper, row);
      upper + row
  }

  /** Every cell of the board exactly once, row by row. */
  function AllCells(): (cells: seq<Point>)
    ensures |cells| == AREA
    ensures Distinct(cells)
    ensures forall p :: p in cells <==> InBounds(p)
  {
    Rows(GRID_SIZE)
  }

  /** The cells of `cells`, in order, that the snake does not occupy. */
  function Unoccupied(cells: seq<Point>, snake: seq<Point>): (free: seq<Point>)
    ensures forall p :: p in free <==> p in cells && p !in snake
    ensures |free| <= |cells|
  {
    if |cells| == 0 then []
    else if cells[0] in snake then Unoccupied(cells[1..], snake)
    else [cells[0]] + Unoccupied(cells[1..], snake)
  }

  /** The board cells the snake does not occupy. */
  function FreeCells(snake: seq<Point>): (free: seq<Point>)
    ensures forall p :: p in free <==> InBounds(p) && p !in snake
  {
    Unoccupied(AllCells(), snake)
  }

  function Elements(s: seq<Point>): set<Point>
  {
    set p | p in s
  }

  /** A sequence has at most as many distinct elements as positions, and
      exactly as many when its elements are pairwise distinct. */
  lemma {:induction false} ElementsCard(s: seq<Point>)
    ensures |Elements(s)| <= |s|
    ensures Distinct(s) ==> |Elements(s)| == |s|
  {
    if |s| > 0 {
      var t := s[1..];
      ElementsCard(t);
      assert Elements(s) == {s[0]} + Elements(t);
      if Distinct(s) {
        assert Distinct(t);
        assert s[0] !in Elements(t);
      }
    }
  }

  lemma SubsetCard(a: set<Point>, b: set<Point>)
    requires a <= b
    ensures |a| <= |b|
  {
    assert b == a + (b - a);
  }

  /** Pigeonhole: a snake shorter than the board's area leaves a cell free,
      whatever its shape. */
  lemma FreeCellExists(snake: seq<Point>)
    requires |snake| < AREA
    ensures |FreeCells(snake)| > 0
  {
    var all := Elements(AllCells());
    var body := Elements(snake);
    ElementsCard(AllCells());
    ElementsCard(snake);
    assert all == (all - body) + (all * body);
    SubsetCard(all * body, body);
    assert |all - body| > 0;
    var p :| p in all - body;
    assert p in FreeCells(snake);
  }

  /** Where the game puts new food: a cell on the board that the snake does
      not occupy. `draw` stands for the random source; the game samples
      cells uniformly until one is free, which never ends when no cell is
      free, hence the requirement. */
  function GenerateFood(snake: seq<Point>, draw: nat): (food: Point)
    requires |FreeCells(snake)| > 0
    ensures InBounds(food) && food !in snake
  {
    var free := FreeCells(snake);
    free[draw % |free|]
  }

  lemma DrawWithinRange(snake: seq<Point>, i: nat)
    requires i < |FreeCells(snake)|
    ensures GenerateFood(snake, i) == FreeCells(snake)[i]
  {
    assert i % |FreeCells(snake)| == i;
  }

  /** Every free cell, and only a free cell, can be chosen as food. */
  lemma EveryFreeCellCanBeChosen(snake: seq<Point>, p: Point)
    requires |FreeCells(snake)| > 0
    ensures (exists draw: nat :: GenerateFood(snake, draw) == p) <==> InBounds(p) && p !in snake
  {
    if InBounds(p) && p !in snake {
      var free := FreeCells(snake);
      assert p in free;
      var i :| 0 <= i < |free| && free[i] == p;
      DrawWithinRange(snake, i);
    }
  }

  /** The initial snake is three distinct cells on the board, each reached
      from the one behind it by a step up, and the initial food is free. */
  lemma InitialLayout()
    ensures |INITIAL_SNAKE| == 3 && Distinct(INITIAL_SNAKE) && AllInBounds(INITIAL_SNAKE)
    ensures forall i :: 0 <= i < |INITIAL_SNAKE| - 1 ==> Move(INITIAL_SNAKE[i + 1], Up) == INITIAL_SNAKE[i]
    ensures InBounds(INITIAL_FOOD) && INITIAL_FOOD !in INITIAL_SNAKE
  {
  }
}
