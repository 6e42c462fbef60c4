/** The bubble board: symbols, cells, positions, 4-neighbour adjacency and swapping. */
module Board {

  /** The eleven bubble symbols: six normal colours and five special ones. */
  datatype Symbol =
    | Red | Orange | Yellow | Green | Blue | Purple
    | Heart | Star | Rainbow | Diamond | Blossom

  /** The special symbols; the session keeps a collection counter for each of them. */
  const Specials: set<Symbol> := {Heart, Star, Rainbow, Diamond, Blossom}

  /** A cell holds a bubble, or is empty while a removal is in progress. */
  datatype Cell = Empty | Bubble(sym: Symbol)

  /** A (row, column) position; rows grow downwards, columns to the right. */
  datatype Pos = Pos(row: int, col: int)

  /** A board as a value: a list of rows. */
  type Grid = seq<seq<Cell>>

  /** Dimensions of the board a session starts with (seven rows of six bubbles). */
  const Rows: nat := 7
  const Cols: nat := 6

  /** The width is read off the first row, as the game does. */
  function Width(g: Grid): nat {
    if |g| == 0 then 0 else |g[0]|
  }

  predicate IsRect(g: Grid) {
    forall i :: 0 <= i < |g| ==> |g[i]| == Width(g)
  }

  predicate InBounds(g: Grid, p: Pos) {
    0 <= p.row < |g| && 0 <= p.col < Width(g)
  }

  function At(g: Grid, p: Pos): Cell
    requires IsRect(g) && InBounds(g, p)
  {
    g[p.row][p.col]
  }

  /** Every cell of the board holds a bubble. */
  predicate Full(g: Grid) {
    forall r, c :: 0 <= r < |g| && 0 <= c < |g[r]| ==> g[r][c] != Empty
  }

  ghost function AllCells(g: Grid): set<Pos> {
    set r: int, c: int | 0 <= r < |g| && 0 <= c < Width(g) :: Pos(r, c)
  }

  lemma InAllCells(g: Grid, p: Pos)
    ensures p in AllCells(g) <==> InBounds(g, p)
  {
    if InBounds(g, p) {
      assert p == Pos(p.row, p.col);
    }
  }

  function Abs(x: int): nat {
    if x < 0 then -x else x
  }

  /** Two positions are adjacent when they differ by one in exactly one coordinate. */
  predicate Adjacent(p: Pos, q: Pos) {
    (Abs(p.row - q.row) == 1 && p.col == q.col) || (Abs(p.col - q.col) == 1 && p.row == q.row)
  }

  function Up(p: Pos): Pos { Pos(p.row - 1, p.col) }
  function Down(p: Pos): Pos { Pos(p.row + 1, p.col) }
  function Left(p: Pos): Pos { Pos(p.row, p.col - 1) }
  function Right(p: Pos): Pos { Pos(p.row, p.col + 1) }

  /** Adjacency is exactly "one of the four orthogonal neighbours": never the cell itself,
      never a diagonal, and symmetric. */
  lemma AdjacentIff(p: Pos, q: Pos)
    ensures Adjacent(p, q) <==> q == Up(p) || q == Down(p) || q == Left(p) || q == Right(p)
    ensures Adjacent(p, q) <==> Adjacent(q, p)
    ensures !Adjacent(p, p)
    ensures p.row != q.row && p.col != q.col ==> !Adjacent(p, q)
  {
  }

  /** The cells of a position list, as a set. */
  function Elems(s: seq<Pos>): set<Pos> {
    set x | x in s
  }

  predicate NoDup(s: seq<Pos>) {
    forall i, j :: 0 <= i < j < |s| ==> s[i] != s[j]
  }

  /** A list without repeats has as many elements as its set. */
  lemma {:induction false} DistinctCard(s: seq<Pos>)
    requires NoDup(s)
    ensures |Elems(s)| == |s|
  {
    if s != [] {
      var n := |s| - 1;
      assert Elems(s) == Elems(s[..n]) + {s[n]};
      assert s[n] !in Elems(s[..n]);
      DistinctCard(s[..n]);
    }
  }

  /** Two boards of the same shape that agree on every cell are equal. */
  lemma GridExt(g: Grid, h: Grid)
    requires IsRect(g) && IsRect(h) && |g| == |h| && Width(g) == Width(h)
    requires forall p :: InBounds(g, p) ==> At(g, p) == At(h, p)
    ensures g == h
  {
    forall r | 0 <= r < |g|
      ensures g[r] == h[r]
    {
      forall c | 0 <= c < Width(g)
        ensures g[r][c] == h[r][c]
      {
        assert At(g, Pos(r, c)) == At(h, Pos(r, c));
      }
    }
  }

  /** The board with one cell replaced. */
  function Put(g: Grid, p: Pos, v: Cell): (r: Grid)
    requires IsRect(g) && InBounds(g, p)
    ensures IsRect(r) && |r| == |g| && Width(r) == Width(g)
    ensures forall q :: InBounds(g, q) ==> At(r, q) == if q == p then v else At(g, q)
  {
    g[p.row := g[p.row][p.col := v]]
  }

  /** The board after exchanging the contents of two cells. */
  function SwapCells(g: Grid, p: Pos, q: Pos): (r: Grid)
    requires IsRect(g) && InBounds(g, p) && InBounds(g, q)
    ensures IsRect(r) && |r| == |g| && Width(r) == Width(g)
    ensures At(r, p) == At(g, q) && At(r, q) == At(g, p)
    ensures forall x :: InBounds(g, x) && x != p && x != q ==> At(r, x) == At(g, x)
  {
    Put(Put(g, p, At(g, q)), q, At(g, p))
  }

  /** Swapping the same two cells twice gives back the board one started with. */
  lemma SwapInvolution(g: Grid, p: Pos, q: Pos)
    requires IsRect(g) && InBounds(g, p) && InBounds(g, q)
    ensures SwapCells(SwapCells(g, p, q), p, q) == g
  {
    GridExt(SwapCells(SwapCells(g, p, q), p, q), g);
  }

  /** Swapping two cells of a full board leaves it full. */
  lemma SwapFull(g: Grid, p: Pos, q: Pos)
    requires IsRect(g) && InBounds(g, p) && InBounds(g, q) && Full(g)
    ensures Full(SwapCells(g, p, q))
  {
    var h := SwapCells(g, p, q);
    forall r, c | 0 <= r < |h| && 0 <= c < |h[r]|
      ensures h[r][c] != Empty
    {
      var x := Pos(r, c);
      assert At(h, x) == if x == p then At(g, q) else if x == q then At(g, p) else At(g, x);
    }
  }

  /** The value of a board held in a two-dimensional array. */
  function Snapshot(a: array2<Cell>): (g: Grid)
    reads a
    ensures |g| == a.Length0 && IsRect(g)
    ensures a.Length0 > 0 ==> Width(g) == a.Length1
    ensures forall p :: InBounds(g, p) <==> 0 <= p.row < a.Length0 && 0 <= p.col < a.Length1
    ensures forall p :: InBounds(g, p) ==> At(g, p) == a[p.row, p.col]
  {
    seq(a.Length0, r requires 0 <= r < a.Length0 reads a =>
      seq(a.Length1, c requires 0 <= c < a.Length1 reads a => a[r, c]))
  }

  /** Python's swap_bubbles: exchanges two cells of the board in place. */
  method SwapBubbles(a: array2<Cell>, p: Pos, q: Pos)
    requires 0 <= p.row < a.Length0 && 0 <= p.col < a.Length1
    requires 0 <= q.row < a.Length0 && 0 <= q.col < a.Length1
    modifies a
    ensures Snapshot(a) == SwapCells(old(Snapshot(a)), p, q)
  {
    ghost var g := Snapshot(a);
    a[p.row, p.col], a[q.row, q.col] := a[q.row, q.col], a[p.row, p.col];
    GridExt(Snapshot(a), SwapCells(g, p, q));
  }
}
