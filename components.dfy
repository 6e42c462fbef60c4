/** Same-symbol 4-connected components and the depth-first search that finds them
    (Python's find_connected_bubbles). */
module Components {
  import opened Board

  /** T is closed: with a cell, T holds each in-bounds neighbour holding the same cell value. */
  ghost predicate Closed(g: Grid, T: set<Pos>)
    requires IsRect(g)
  {
    forall a, b :: a in T && InBounds(g, a) && InBounds(g, b) && Adjacent(a, b) && At(g, a) == At(g, b) ==> b in T
  }

  /** The component of s: the cells that every closed set containing s contains, i.e. the
      least closed set containing s, which is the set of cells reachable from s through
      adjacent cells holding the same value. */
  ghost function Component(g: Grid, s: Pos): set<Pos>
    requires IsRect(g)
  {
    set p | p in AllCells(g) && forall T :: Closed(g, T) && s in T ==> p in T
  }

  lemma ComponentHasStart(g: Grid, s: Pos)
    requires IsRect(g) && InBounds(g, s)
    ensures s in Component(g, s)
  {
    InAllCells(g, s);
  }

  lemma ComponentInBounds(g: Grid, s: Pos, p: Pos)
    requires IsRect(g) && p in Component(g, s)
    ensures InBounds(g, p)
  {
    InAllCells(g, p);
  }

  /** The component lies inside every closed set that contains its start. */
  lemma ComponentLeast(g: Grid, s: Pos, T: set<Pos>)
    requires IsRect(g) && Closed(g, T) && s in T
    ensures Component(g, s) <= T
  {
  }

  lemma ComponentClosed(g: Grid, s: Pos)
    requires IsRect(g)
    ensures Closed(g, Component(g, s))
  {
    var C := Component(g, s);
    forall a, b | a in C && InBounds(g, a) && InBounds(g, b) && Adjacent(a, b) && At(g, a) == At(g, b)
      ensures b in C
    {
      InAllCells(g, b);
      forall T | Closed(g, T) && s in T
        ensures b in T
      {
        assert a in T;
      }
    }
  }

  /** A cell of a component has all of its own component inside it. */
  lemma ComponentSubset(g: Grid, s: Pos, p: Pos)
    requires IsRect(g) && p in Component(g, s)
    ensures Component(g, p) <= Component(g, s)
  {
    ComponentClosed(g, s);
    ComponentLeast(g, p, Component(g, s));
  }

  /** Being in the same component is symmetric. */
  lemma {:induction false} ComponentSymmetric(g: Grid, s: Pos, p: Pos)
    requires IsRect(g) && InBounds(g, s) && p in Component(g, s)
    ensures s in Component(g, p)
  {
    var T := set q | q in AllCells(g) && s in Component(g, q);
    forall a, b | a in T && InBounds(g, a) && InBounds(g, b) && Adjacent(a, b) && At(g, a) == At(g, b)
      ensures b in T
    {
      InAllCells(g, b);
      ComponentHasStart(g, b);
      ComponentClosed(g, b);
      AdjacentIff(a, b);
      assert a in Component(g, b);
      ComponentSubset(g, b, a);
    }
    InAllCells(g, s);
    ComponentHasStart(g, s);
    assert s in T;
    ComponentLeast(g, s, T);
  }

  /** Components partition the board: a cell of the component of s has the same component. */
  lemma ComponentSame(g: Grid, s: Pos, p: Pos)
    requires IsRect(g) && InBounds(g, s) && p in Component(g, s)
    ensures Component(g, p) == Component(g, s)
  {
    ComponentSubset(g, s, p);
    ComponentInBounds(g, s, p);
    ComponentSymmetric(g, s, p);
    ComponentSubset(g, p, s);
  }

  /** Every cell of the component holds the value of its start. */
  lemma ComponentUniform(g: Grid, s: Pos, p: Pos)
    requires IsRect(g) && InBounds(g, s) && p in Component(g, s)
    ensures InBounds(g, p) && At(g, p) == At(g, s)
  {
    var T := set q | q in AllCells(g) && InBounds(g, q) && At(g, q) == At(g, s);
    forall a, b | a in T && InBounds(g, a) && InBounds(g, b) && Adjacent(a, b) && At(g, a) == At(g, b)
      ensures b in T
    {
      InAllCells(g, b);
    }
    InAllCells(g, s);
    ComponentLeast(g, s, T);
  }

  /** Each in-bounds neighbour of v holding v's value is already visited or still on the stack. */
  ghost predicate Covered(g: Grid, v: Pos, visited: set<Pos>, stack: seq<Pos>)
    requires IsRect(g) && InBounds(g, v)
  {
    forall n :: n in [Up(v), Down(v), Left(v), Right(v)] && InBounds(g, n) && At(g, n) == At(g, v) ==>
      n in visited || n in stack
  }

  lemma CoveredAfterSkip(g: Grid, visited: set<Pos>, stack: seq<Pos>, p: Pos, target: Cell)
    requires IsRect(g)
    requires forall v :: v in visited ==> InBounds(g, v) && At(g, v) == target
    requires forall v :: v in visited ==> Covered(g, v, visited, stack + [p])
    requires p in visited || !InBounds(g, p) || At(g, p) != target
    ensures forall v :: v in visited ==> Covered(g, v, visited, stack)
  {
    forall v | v in visited
      ensures Covered(g, v, visited, stack)
    {
      assert Covered(g, v, visited, stack + [p]);
      forall n | n in [Up(v), Down(v), Left(v), Right(v)] && InBounds(g, n) && At(g, n) == At(g, v)
        ensures n in visited || n in stack
      {
        assert n in visited || n in stack + [p];
      }
    }
  }

  lemma CoveredAfterVisit(g: Grid, visited: set<Pos>, stack: seq<Pos>, p: Pos)
    requires IsRect(g) && InBounds(g, p)
    requires forall v :: v in visited ==> InBounds(g, v) && Covered(g, v, visited, stack + [p])
    ensures forall v :: v in visited + {p} ==>
      InBounds(g, v) && Covered(g, v, visited + {p}, stack + [Right(p), Left(p), Down(p), Up(p)])
  {
    var stack' := stack + [Right(p), Left(p), Down(p), Up(p)];
    forall v | v in visited + {p}
      ensures InBounds(g, v) && Covered(g, v, visited + {p}, stack')
    {
      if v != p {
        assert Covered(g, v, visited, stack + [p]);
        forall n | n in [Up(v), Down(v), Left(v), Right(v)] && InBounds(g, n) && At(g, n) == At(g, v)
          ensures n in visited + {p} || n in stack'
        {
          assert n in visited || n in stack + [p];
        }
      }
    }
  }

  /** When no cell is left to examine, the visited set is closed. */
  lemma ClosedWhenCovered(g: Grid, visited: set<Pos>)
    requires IsRect(g)
    requires forall v :: v in visited ==> InBounds(g, v) && Covered(g, v, visited, [])
    ensures Closed(g, visited)
  {
    forall a, b | a in visited && InBounds(g, a) && InBounds(g, b) && Adjacent(a, b) && At(g, a) == At(g, b)
      ensures b in visited
    {
      AdjacentIff(a, b);
      assert Covered(g, a, visited, []);
    }
  }

  /** What the search knows at the top of each iteration. */
  ghost predicate SearchInv(g: Grid, start: Pos, target: Cell, visited: set<Pos>, connected: seq<Pos>,
                            stack: seq<Pos>, parents: seq<Pos>)
    requires IsRect(g)
  {
    InBounds(g, start) && At(g, start) == target &&
    |parents| == |stack| &&
    visited == Elems(connected) && NoDup(connected) && visited <= AllCells(g) &&
    (connected == [] ==> stack == [start]) &&
    (connected != [] ==> connected[0] == start) &&
    (forall v :: v in visited ==> InBounds(g, v) && At(g, v) == target) &&
    (forall i :: 0 <= i < |stack| ==>
       stack[i] == start || (parents[i] in visited && Adjacent(parents[i], stack[i]))) &&
    (forall T :: Closed(g, T) && start in T ==> visited <= T) &&
    (forall v :: v in visited ==> Covered(g, v, visited, stack))
  }

  /** Popping a cell that is outside the board, already visited or of another value. */
  lemma SkipStep(g: Grid, start: Pos, target: Cell, visited: set<Pos>, connected: seq<Pos>,
                 stack: seq<Pos>, parents: seq<Pos>)
    requires IsRect(g) && stack != [] && SearchInv(g, start, target, visited, connected, stack, parents)
    requires var p := stack[|stack| - 1]; p in visited || !InBounds(g, p) || At(g, p) != target
    ensures SearchInv(g, start, target, visited, connected, stack[..|stack| - 1], parents[..|stack| - 1])
  {
    var top := |stack| - 1;
    assert stack == stack[..top] + [stack[top]];
    CoveredAfterSkip(g, visited, stack[..top], stack[top], target);
  }

  lemma VisitSound(g: Grid, start: Pos, target: Cell, visited: set<Pos>, p: Pos, parent: Pos)
    requires IsRect(g) && InBounds(g, p) && InBounds(g, start)
    requires forall v :: v in visited ==> InBounds(g, v) && At(g, v) == target
    requires At(g, p) == target
    requires p == start || (parent in visited && Adjacent(parent, p))
    requires forall T :: Closed(g, T) && start in T ==> visited <= T
    ensures forall T :: Closed(g, T) && start in T ==> visited + {p} <= T
  {
    forall T | Closed(g, T) && start in T
      ensures p in T
    {
      if p != start {
        assert parent in T;
      }
    }
  }

  lemma VisitParents(stack: seq<Pos>, parents: seq<Pos>, start: Pos, visited: set<Pos>, p: Pos)
    requires |parents| == |stack|
    requires forall i :: 0 <= i < |stack| ==>
       stack[i] == start || (parents[i] in visited && Adjacent(parents[i], stack[i]))
    ensures var s := stack + [Right(p), Left(p), Down(p), Up(p)]; var ps := parents + [p, p, p, p];
      forall i :: 0 <= i < |s| ==> s[i] == start || (ps[i] in visited + {p} && Adjacent(ps[i], s[i]))
  {
    AdjacentIff(p, Up(p));
    AdjacentIff(p, Down(p));
    AdjacentIff(p, Left(p));
    AdjacentIff(p, Right(p));
  }

  /** Popping a cell of the component that has not been visited yet. */
  lemma VisitStep(g: Grid, start: Pos, target: Cell, visited: set<Pos>, connected: seq<Pos>,
                  stack: seq<Pos>, parents: seq<Pos>)
    requires IsRect(g) && stack != [] && SearchInv(g, start, target, visited, connected, stack, parents)
    requires var p := stack[|stack| - 1]; p !in visited && InBounds(g, p) && At(g, p) == target
    ensures var top := |stack| - 1; var p := stack[top];
      SearchInv(g, start, target, visited + {p}, connected + [p],
                stack[..top] + [Right(p), Left(p), Down(p), Up(p)], parents[..top] + [p, p, p, p]) &&
      |AllCells(g) - (visited + {p})| < |AllCells(g) - visited|
  {
    var top := |stack| - 1;
    var p := stack[top];
    var stack', parents' := stack[..top], parents[..top];
    assert stack == stack' + [p];
    VisitSound(g, start, target, visited, p, parents[top]);
    VisitParents(stack', parents', start, visited, p);
    CoveredAfterVisit(g, visited, stack', p);
    InAllCells(g, p);
    assert (AllCells(g) - (visited + {p})) + {p} == AllCells(g) - visited;
    assert Elems(connected + [p]) == Elems(connected) + {p};
  }

  /** Python's find_connected_bubbles. The recursive search is run with an explicit stack; the
      four neighbours are pushed in reverse so that they are taken in the order up, down, left,
      right, as the recursive calls are made. Returns [] for a start outside the board or on an
      empty cell; otherwise the cells of the start's component, start first, each once. */
  method FindConnected(g: Grid, start: Pos) returns (connected: seq<Pos>)
    requires IsRect(g)
    ensures !InBounds(g, start) || At(g, start) == Empty ==> connected == []
    ensures InBounds(g, start) && At(g, start) != Empty ==>
      |connected| > 0 && connected[0] == start && NoDup(connected) &&
      (forall i :: 0 <= i < |connected| ==> InBounds(g, connected[i]) && At(g, connected[i]) == At(g, start)) &&
      Elems(connected) == Component(g, start)
  {
    if !InBounds(g, start) {
      return [];
    }
    var target := At(g, start);
    if target == Empty {
      return [];
    }
    var visited: set<Pos> := {};
    connected := [];
    var stack := [start];
    ghost var parents := [start];
    while stack != []
      invariant SearchInv(g, start, target, visited, connected, stack, parents)
      decreases |AllCells(g) - visited|, |stack|
    {
      var top := |stack| - 1;
      var p := stack[top];
      if p in visited || !InBounds(g, p) || At(g, p) != target {
        SkipStep(g, start, target, visited, connected, stack, parents);
        stack := stack[..top];
        parents := parents[..top];
        continue;
      }
      VisitStep(g, start, target, visited, connected, stack, parents);
      visited := visited + {p};
      connected := connected + [p];
      stack := stack[..top] + [Right(p), Left(p), Down(p), Up(p)];
      parents := parents[..top] + [p, p, p, p];
    }
    ClosedWhenCovered(g, visited);
    ComponentLeast(g, start, visited);
    forall i | 0 <= i < |connected|
      ensures InBounds(g, connected[i]) && At(g, connected[i]) == target
    {
      assert connected[i] in visited;
    }
  }
}
