/** Python's remove_bubbles and generate_enhanced_grid: emptying cells, letting each column
    fall, and filling the board from a random source. */
module Gravity {
  import opened Board

  /** The game's random source, reduced to what the board needs of it: one symbol per draw.
      The k-th draw is `choose(k)`; which symbols come out, and how likely each is, is left
      to whoever supplies `choose`. */
  class SymbolSource {
    const choose: nat -> Symbol
    var drawn: nat

    constructor (choose: nat -> Symbol)
      ensures this.choose == choose && drawn == 0
    {
      this.choose := choose;
      drawn := 0;
    }

    method Next() returns (s: Symbol)
      modifies this
      ensures drawn == old(drawn) + 1 && s == choose(old(drawn))
    {
      s := choose(drawn);
      drawn := drawn + 1;
    }
  }

  /** The board with every listed position on the board emptied; positions off the board are
      ignored. */
  function Blank(g: Grid, ps: seq<Pos>): (r: Grid)
    requires IsRect(g)
    ensures IsRect(r) && |r| == |g| && Width(r) == Width(g)
    ensures forall q :: InBounds(g, q) ==> At(r, q) == if q in ps then Empty else At(g, q)
    decreases |ps|
  {
    if ps == [] then g
    else
      var front := ps[..|ps| - 1];
      var h := Blank(g, front);
      var p := ps[|ps| - 1];
      assert forall q :: q in ps <==> q in front || q == p by {
        assert ps == front + [p];
      }
      if InBounds(h, p) then Put(h, p, Empty) else h
  }

  /** The bubbles of a column from top to bottom, empty cells dropped. */
  function Compact(col: seq<Cell>): (k: seq<Cell>)
    ensures |k| <= |col|
    ensures forall i :: 0 <= i < |k| ==> k[i] != Empty
    ensures (forall i :: 0 <= i < |col| ==> col[i] != Empty) ==> k == col
  {
    if col == [] then []
    else
      var last := col[|col| - 1];
      assert col == col[..|col| - 1] + [last];
      Compact(col[..|col| - 1]) + if last != Empty then [last] else []
  }

  lemma CompactSnoc(col: seq<Cell>, x: Cell)
    ensures Compact(col + [x]) == Compact(col) + if x != Empty then [x] else []
  {
    assert (col + [x])[..|col|] == col;
  }

  /** A column after the fall: the empty places on top, the bubbles below in their order. */
  function Drop(col: seq<Cell>): (d: seq<Cell>)
    ensures |d| == |col|
  {
    seq(|col| - |Compact(col)|, _ => Empty) + Compact(col)
  }

  function ColumnOf(g: Grid, c: int): (col: seq<Cell>)
    requires IsRect(g) && 0 <= c < Width(g)
    ensures |col| == |g|
    ensures forall r :: 0 <= r < |g| ==> col[r] == g[r][c]
  {
    seq(|g|, r requires 0 <= r < |g| => g[r][c])
  }

  /** h is a board that removing the cells at ps from g can leave: of the same shape, full, and
      in every column the bubbles that were not removed sit in the bottom rows, in the order
      they had from top to bottom. What fills the rows above them is random. */
  ghost predicate Settles(g: Grid, ps: seq<Pos>, h: Grid)
    requires IsRect(g)
  {
    var b := Blank(g, ps);
    IsRect(h) && |h| == |g| && Width(h) == Width(g) && Full(h) &&
    forall c :: 0 <= c < Width(g) ==>
      ColumnOf(h, c)[|g| - |Compact(ColumnOf(b, c))|..] == Compact(ColumnOf(b, c))
  }

  /** Removing nothing from a full board leaves every column where it was, so a removal never
      moves a bubble that had no gap below it. */
  lemma SettleNothing(g: Grid, h: Grid)
    requires IsRect(g) && Full(g) && Settles(g, [], h)
    ensures h == g
  {
    forall c | 0 <= c < Width(g)
      ensures ColumnOf(h, c) == ColumnOf(g, c)
    {
      var col := ColumnOf(g, c);
      assert Blank(g, []) == g;
      assert forall i :: 0 <= i < |col| ==> col[i] != Empty;
      assert ColumnOf(h, c)[0..] == ColumnOf(h, c);
    }
    forall p | InBounds(g, p)
      ensures At(h, p) == At(g, p)
    {
      assert ColumnOf(h, p.col)[p.row] == ColumnOf(g, p.col)[p.row];
    }
    GridExt(h, g);
  }

  /** First phase of remove_bubbles: empty the listed cells that lie on the board. */
  method BlankCells(a: array2<Cell>, positions: seq<Pos>)
    modifies a
    ensures Snapshot(a) == Blank(old(Snapshot(a)), positions)
  {
    ghost var g := Snapshot(a);
    for k := 0 to |positions|
      invariant forall r, c :: 0 <= r < a.Length0 && 0 <= c < a.Length1 ==>
        a[r, c] == if Pos(r, c) in positions[..k] then Empty else g[r][c]
    {
      var p := positions[k];
      assert positions[..k + 1] == positions[..k] + [p];
      if 0 <= p.row < a.Length0 && 0 <= p.col < a.Length1 {
        a[p.row, p.col] := Empty;
      }
    }
    assert positions[..|positions|] == positions;
    GridExt(Snapshot(a), Blank(g, positions));
  }

  /** The bubbles of column c read from top to bottom, as the source gathers them before the
      column falls. */
  method ColumnBubbles(a: array2<Cell>, c: int) returns (bubbles: seq<Cell>)
    requires a.Length0 > 0 && 0 <= c < a.Length1
    ensures bubbles == Compact(ColumnOf(Snapshot(a), c))
  {
    ghost var col := ColumnOf(Snapshot(a), c);
    bubbles := [];
    for row := 0 to a.Length0
      invariant bubbles == Compact(col[..row])
    {
      assert col[..row + 1] == col[..row] + [a[row, c]];
      CompactSnoc(col[..row], a[row, c]);
      if a[row, c] != Empty {
        bubbles := bubbles + [a[row, c]];
      }
    }
    assert col[..a.Length0] == col;
  }

  /** Empties column c and writes the given bubbles back from the bottom row up. */
  method WriteColumn(a: array2<Cell>, c: int, bubbles: seq<Cell>)
    requires 0 <= c < a.Length1 && |bubbles| <= a.Length0
    modifies a
    ensures forall r :: 0 <= r < a.Length0 - |bubbles| ==> a[r, c] == Empty
    ensures forall r :: a.Length0 - |bubbles| <= r < a.Length0 ==> a[r, c] == bubbles[r - (a.Length0 - |bubbles|)]
    ensures forall r, c' :: 0 <= r < a.Length0 && 0 <= c' < a.Length1 && c' != c ==> a[r, c'] == old(a[r, c'])
  {
    var rows := a.Length0;
    for row := 0 to rows
      invariant forall r :: 0 <= r < row ==> a[r, c] == Empty
      invariant forall r, c' :: 0 <= r < a.Length0 && 0 <= c' < a.Length1 && c' != c ==> a[r, c'] == old(a[r, c'])
    {
      a[row, c] := Empty;
    }
    var n := |bubbles|;
    for i := 0 to n
      invariant forall r :: 0 <= r < rows - i ==> a[r, c] == Empty
      invariant forall r :: rows - i <= r < rows ==> a[r, c] == bubbles[r - (rows - n)]
      invariant forall r, c' :: 0 <= r < a.Length0 && 0 <= c' < a.Length1 && c' != c ==> a[r, c'] == old(a[r, c'])
    {
      a[rows - 1 - i, c] := bubbles[n - 1 - i];
    }
  }

  /** Second phase, for one column: collect its bubbles top to bottom, empty it, and write the
      bubbles back from the bottom row up. */
  method SettleColumn(a: array2<Cell>, c: int)
    requires a.Length0 > 0 && 0 <= c < a.Length1
    modifies a
    ensures forall r :: 0 <= r < a.Length0 ==> a[r, c] == Drop(old(ColumnOf(Snapshot(a), c)))[r]
    ensures forall r, c' :: 0 <= r < a.Length0 && 0 <= c' < a.Length1 && c' != c ==> a[r, c'] == old(a[r, c'])
  {
    ghost var col := ColumnOf(Snapshot(a), c);
    var bubbles := ColumnBubbles(a, c);
    WriteColumn(a, c, bubbles);
    ghost var d := Drop(col);
    assert forall r :: 0 <= r < a.Length0 ==> a[r, c] == d[r];
  }

  /** Second phase of remove_bubbles: every column falls. */
  method ApplyGravity(a: array2<Cell>)
    requires a.Length0 > 0
    modifies a
    ensures forall r, c :: 0 <= r < a.Length0 && 0 <= c < a.Length1 ==>
      a[r, c] == Drop(old(ColumnOf(Snapshot(a), c)))[r]
  {
    ghost var g := Snapshot(a);
    for c := 0 to a.Length1
      invariant forall r, c' :: 0 <= r < a.Length0 && 0 <= c' < c ==> a[r, c'] == Drop(ColumnOf(g, c'))[r]
      invariant forall r, c' :: 0 <= r < a.Length0 && c <= c' < a.Length1 ==> a[r, c'] == g[r][c']
    {
      assert ColumnOf(Snapshot(a), c) == ColumnOf(g, c);
      SettleColumn(a, c);
    }
  }

  /** Third phase of remove_bubbles: each empty cell, column by column, gets a fresh symbol. */
  method Refill(a: array2<Cell>, rng: SymbolSource)
    modifies a, rng
    ensures Full(Snapshot(a))
    ensures forall r, c :: 0 <= r < a.Length0 && 0 <= c < a.Length1 && old(a[r, c]) != Empty ==>
      a[r, c] == old(a[r, c])
  {
    for c := 0 to a.Length1
      invariant forall r, c' :: 0 <= r < a.Length0 && 0 <= c' < c ==> a[r, c'] != Empty
      invariant forall r, c' :: 0 <= r < a.Length0 && 0 <= c' < a.Length1 && old(a[r, c']) != Empty ==>
        a[r, c'] == old(a[r, c'])
      invariant forall r, c' :: 0 <= r < a.Length0 && c <= c' < a.Length1 ==> a[r, c'] == old(a[r, c'])
    {
      for row := 0 to a.Length0
        invariant forall r, c' :: 0 <= r < a.Length0 && 0 <= c' < c ==> a[r, c'] != Empty
        invariant forall r :: 0 <= r < row ==> a[r, c] != Empty
        invariant forall r, c' :: 0 <= r < a.Length0 && 0 <= c' < a.Length1 && old(a[r, c']) != Empty ==>
          a[r, c'] == old(a[r, c'])
        invariant forall r, c' :: 0 <= r < a.Length0 && c < c' < a.Length1 ==> a[r, c'] == old(a[r, c'])
        invariant forall r :: row <= r < a.Length0 ==> a[r, c] == old(a[r, c])
      {
        if a[row, c] == Empty {
          var s := rng.Next();
          a[row, c] := Bubble(s);
        }
      }
    }
  }

  /** The three phases together leave a board that Settles describes. */
  lemma PhasesSettle(g: Grid, positions: seq<Pos>, b: Grid, d: Grid, h: Grid)
    requires IsRect(g) && |g| > 0 && b == Blank(g, positions)
    requires IsRect(d) && |d| == |g| && Width(d) == Width(g)
    requires forall r, c :: 0 <= r < |g| && 0 <= c < Width(g) ==> d[r][c] == Drop(ColumnOf(b, c))[r]
    requires IsRect(h) && |h| == |g| && Width(h) == Width(g) && Full(h)
    requires forall r, c :: 0 <= r < |g| && 0 <= c < Width(g) && d[r][c] != Empty ==> h[r][c] == d[r][c]
    ensures Settles(g, positions, h)
  {
    forall c | 0 <= c < Width(g)
      ensures ColumnOf(h, c)[|g| - |Compact(ColumnOf(b, c))|..] == Compact(ColumnOf(b, c))
    {
      var k := Compact(ColumnOf(b, c));
      var m := |g| - |k|;
      forall i | 0 <= i < |k|
        ensures ColumnOf(h, c)[m..][i] == k[i]
      {
        assert d[m + i][c] == Drop(ColumnOf(b, c))[m + i] == k[i];
      }
    }
  }

  /** Python's remove_bubbles: empties the listed cells (ignoring those off the board), lets
      every column fall so that its remaining bubbles keep their order at the bottom, and
      refills the empty cells from the random source. Like the source, it reads the width off
      the first row, so the board has at least one. */
  method RemoveBubbles(a: array2<Cell>, positions: seq<Pos>, rng: SymbolSource)
    requires a.Length0 > 0
    modifies a, rng
    ensures Settles(old(Snapshot(a)), positions, Snapshot(a))
  {
    ghost var g := Snapshot(a);
    BlankCells(a, positions);
    ghost var b := Snapshot(a);
    ApplyGravity(a);
    ghost var d := Snapshot(a);
    Refill(a, rng);
    PhasesSettle(g, positions, b, d, Snapshot(a));
  }

  /** Python's generate_enhanced_grid: a rows-by-cols board, each cell drawn from the source. */
  method GenerateGrid(rows: nat, cols: nat, rng: SymbolSource) returns (a: array2<Cell>)
    modifies rng
    ensures fresh(a) && a.Length0 == rows && a.Length1 == cols
    ensures Full(Snapshot(a))
  {
    a := new Cell[rows, cols]((_, _) => Empty);
    for i := 0 to rows
      invariant forall r, c :: 0 <= r < i && 0 <= c < cols ==> a[r, c] != Empty
    {
      for j := 0 to cols
        invariant forall r, c :: 0 <= r < i && 0 <= c < cols ==> a[r, c] != Empty
        invariant forall c :: 0 <= c < j ==> a[i, c] != Empty
      {
        var s := rng.Next();
        a[i, j] := Bubble(s);
      }
    }
  }
}
