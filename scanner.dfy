/** Python's find_all_clearable_groups: every same-symbol component of three or more cells. */
module Scanner {
  import opened Board
  import opened Components

  /** How many cells find_connected_bubbles reports for p: none off the board or on an empty cell. */
  ghost function GroupSize(g: Grid, p: Pos): nat
    requires IsRect(g)
  {
    if InBounds(g, p) && At(g, p) != Empty then |Component(g, p)| else 0
  }

  /** The cells that belong to a component of size three or more. */
  ghost function ClearableCells(g: Grid): set<Pos>
    requires IsRect(g)
  {
    set p | p in AllCells(g) && GroupSize(g, p) >= 3
  }

  /** The groups one after the other, as `all_positions.extend(group)` builds them. */
  function Flatten(groups: seq<seq<Pos>>): seq<Pos> {
    if groups == [] then [] else Flatten(groups[..|groups| - 1]) + groups[|groups| - 1]
  }

  /** A reported group: a whole component of a bubble, of size three or more, listed without repeats. */
  ghost predicate IsGroup(g: Grid, grp: seq<Pos>)
    requires IsRect(g)
  {
    |grp| >= 3 && NoDup(grp) && InBounds(g, grp[0]) && At(g, grp[0]) != Empty &&
    Elems(grp) == Component(g, grp[0])
  }

  ghost predicate Disjoint(groups: seq<seq<Pos>>) {
    forall i, j :: 0 <= i < j < |groups| ==> Elems(groups[i]) !! Elems(groups[j])
  }

  lemma ElemsConcat(a: seq<Pos>, b: seq<Pos>)
    ensures Elems(a + b) == Elems(a) + Elems(b)
  {
    forall x | x in Elems(a + b)
      ensures x in Elems(a) + Elems(b)
    {
      var k :| 0 <= k < |a + b| && (a + b)[k] == x;
      if k >= |a| {
        assert b[k - |a|] == x;
      }
    }
  }

  lemma {:induction false} ElemsFlatten(groups: seq<seq<Pos>>, k: int)
    requires 0 <= k < |groups|
    ensures Elems(groups[k]) <= Elems(Flatten(groups))
  {
    var n := |groups| - 1;
    ElemsConcat(Flatten(groups[..n]), groups[n]);
    if k < n {
      ElemsFlatten(groups[..n], k);
    }
  }

  /** Disjoint groups without repeats flatten to a list without repeats. */
  lemma {:induction false} FlattenNoDup(groups: seq<seq<Pos>>)
    requires forall k :: 0 <= k < |groups| ==> NoDup(groups[k])
    requires Disjoint(groups)
    ensures NoDup(Flatten(groups))
  {
    if groups != [] {
      var n := |groups| - 1;
      var front := Flatten(groups[..n]);
      FlattenNoDup(groups[..n]);
      forall x | x in Elems(front)
        ensures x !in Elems(groups[n])
      {
        var k :| 0 <= k < |front| && front[k] == x;
        assert x in Elems(front);
        ElemsFlattenWitness(groups[..n], x);
      }
      var whole := front + groups[n];
      forall i, j | 0 <= i < j < |whole|
        ensures whole[i] != whole[j]
      {
        if i < |front| && j >= |front| {
          assert whole[i] in Elems(front);
          assert whole[j] == groups[n][j - |front|];
          assert whole[j] in Elems(groups[n]);
        } else if i >= |front| {
          assert whole[i] == groups[n][i - |front|] && whole[j] == groups[n][j - |front|];
        }
      }
    }
  }

  /** Every cell of the flattened list comes from one of the groups. */
  lemma {:induction false} ElemsFlattenWitness(groups: seq<seq<Pos>>, x: Pos)
    requires x in Elems(Flatten(groups))
    ensures exists k :: 0 <= k < |groups| && x in Elems(groups[k])
  {
    var n := |groups| - 1;
    ElemsConcat(Flatten(groups[..n]), groups[n]);
    if x !in Elems(groups[n]) {
      ElemsFlattenWitness(groups[..n], x);
      var k :| 0 <= k < n && x in Elems(groups[..n][k]);
      assert groups[..n][k] == groups[k];
    }
  }

  /** A fresh component is disjoint from every component already visited. */
  lemma FreshComponent(g: Grid, visited: set<Pos>, p: Pos)
    requires IsRect(g) && InBounds(g, p) && p !in visited
    requires forall q :: q in visited ==> Component(g, q) <= visited
    ensures Component(g, p) !! visited
    ensures forall x :: x in Component(g, p) ==> Component(g, x) == Component(g, p)
  {
    ComponentHasStart(g, p);
    forall x | x in Component(g, p)
      ensures Component(g, x) == Component(g, p) && x !in visited
    {
      ComponentSame(g, p, x);
    }
  }

  /** The cells before (i, j) in row-major order that hold a bubble have been visited. */
  ghost predicate ScannedBefore(g: Grid, visited: set<Pos>, i: int, j: int)
    requires IsRect(g)
  {
    forall r, c :: 0 <= r < |g| && 0 <= c < Width(g) && (r < i || (r == i && c < j)) && g[r][c] != Empty ==>
      Pos(r, c) in visited
  }

  /** The groups found so far, set against the visited cells. */
  ghost predicate GroupsInv(g: Grid, visited: set<Pos>, groups: seq<seq<Pos>>)
    requires IsRect(g)
  {
    (forall k :: 0 <= k < |groups| ==> IsGroup(g, groups[k])) &&
    Disjoint(groups) &&
    Elems(Flatten(groups)) <= visited &&
    (forall p :: p in visited ==> (p in Elems(Flatten(groups)) <==> |Component(g, p)| >= 3))
  }

  /** Visited cells hold bubbles and come in whole components. */
  ghost predicate VisitedInv(g: Grid, visited: set<Pos>)
    requires IsRect(g)
  {
    forall p :: p in visited ==> InBounds(g, p) && At(g, p) != Empty && Component(g, p) <= visited
  }

  lemma ScanStepVisited(g: Grid, visited: set<Pos>, p: Pos)
    requires IsRect(g) && InBounds(g, p) && At(g, p) != Empty && p !in visited
    requires VisitedInv(g, visited)
    ensures VisitedInv(g, visited + Component(g, p))
  {
    FreshComponent(g, visited, p);
    forall x | x in Component(g, p)
      ensures InBounds(g, x) && At(g, x) != Empty
    {
      ComponentUniform(g, p, x);
    }
  }

  /** A component too small to clear: the groups stay as they are. */
  lemma ScanStepSmall(g: Grid, visited: set<Pos>, groups: seq<seq<Pos>>, connected: seq<Pos>)
    requires IsRect(g) && VisitedInv(g, visited) && GroupsInv(g, visited, groups)
    requires 0 < |connected| < 3 && NoDup(connected)
    requires InBounds(g, connected[0]) && connected[0] !in visited
    requires Elems(connected) == Component(g, connected[0])
    ensures GroupsInv(g, visited + Elems(connected), groups)
  {
    var C := Elems(connected);
    FreshComponent(g, visited, connected[0]);
    DistinctCard(connected);
    forall x | x in visited + C
      ensures x in Elems(Flatten(groups)) <==> |Component(g, x)| >= 3
    {
    }
  }

  lemma AppendDisjoint(groups: seq<seq<Pos>>, grp: seq<Pos>)
    requires Disjoint(groups) && Elems(Flatten(groups)) !! Elems(grp)
    ensures Disjoint(groups + [grp])
  {
    var groups' := groups + [grp];
    forall a, b | 0 <= a < b < |groups'|
      ensures Elems(groups'[a]) !! Elems(groups'[b])
    {
      if b == |groups| {
        ElemsFlatten(groups, a);
      } else {
        assert groups'[a] == groups[a] && groups'[b] == groups[b];
      }
    }
  }

  lemma AppendGroups(g: Grid, groups: seq<seq<Pos>>, grp: seq<Pos>)
    requires IsRect(g) && (forall k :: 0 <= k < |groups| ==> IsGroup(g, groups[k])) && IsGroup(g, grp)
    ensures forall k :: 0 <= k < |groups + [grp]| ==> IsGroup(g, (groups + [grp])[k])
  {
    forall k | 0 <= k < |groups + [grp]|
      ensures IsGroup(g, (groups + [grp])[k])
    {
      if k < |groups| {
        assert (groups + [grp])[k] == groups[k];
      }
    }
  }

  lemma FlattenAppend(groups: seq<seq<Pos>>, grp: seq<Pos>)
    ensures Elems(Flatten(groups + [grp])) == Elems(Flatten(groups)) + Elems(grp)
  {
    assert (groups + [grp])[..|groups|] == groups;
    ElemsConcat(Flatten(groups), grp);
  }

  /** A component of size three or more: it becomes a new group. */
  lemma ScanStepAppend(g: Grid, visited: set<Pos>, groups: seq<seq<Pos>>, connected: seq<Pos>)
    requires IsRect(g) && VisitedInv(g, visited) && GroupsInv(g, visited, groups)
    requires |connected| >= 3 && NoDup(connected)
    requires InBounds(g, connected[0]) && At(g, connected[0]) != Empty && connected[0] !in visited
    requires Elems(connected) == Component(g, connected[0])
    ensures GroupsInv(g, visited + Elems(connected), groups + [connected])
  {
    var C := Elems(connected);
    FreshComponent(g, visited, connected[0]);
    DistinctCard(connected);
    FlattenAppend(groups, connected);
    AppendDisjoint(groups, connected);
    AppendGroups(g, groups, connected);
    var U := Elems(Flatten(groups + [connected]));
    forall x | x in visited + C
      ensures x in U <==> |Component(g, x)| >= 3
    {
    }
  }

  /** Moving past a cell that is empty or already visited. */
  lemma ScanSkip(g: Grid, visited: set<Pos>, i: int, j: int)
    requires IsRect(g) && 0 <= i < |g| && 0 <= j < Width(g)
    requires ScannedBefore(g, visited, i, j)
    requires Pos(i, j) in visited || g[i][j] == Empty
    ensures ScannedBefore(g, visited, i, j + 1)
  {
  }

  lemma ScanNextRow(g: Grid, visited: set<Pos>, i: int)
    requires IsRect(g) && ScannedBefore(g, visited, i, Width(g))
    ensures ScannedBefore(g, visited, i + 1, 0)
  {
  }

  lemma ScanDone(g: Grid, visited: set<Pos>, groups: seq<seq<Pos>>)
    requires IsRect(g) && ScannedBefore(g, visited, |g|, 0)
    requires VisitedInv(g, visited) && GroupsInv(g, visited, groups)
    ensures Elems(Flatten(groups)) == ClearableCells(g)
    ensures NoDup(Flatten(groups)) && |Flatten(groups)| == |ClearableCells(g)|
  {
    forall x | x in ClearableCells(g)
      ensures x in Elems(Flatten(groups))
    {
      InAllCells(g, x);
      assert g[x.row][x.col] != Empty;
    }
    forall x | x in Elems(Flatten(groups))
      ensures x in ClearableCells(g)
    {
      InAllCells(g, x);
    }
    forall k | 0 <= k < |groups|
      ensures NoDup(groups[k])
    {
      assert IsGroup(g, groups[k]);
    }
    FlattenNoDup(groups);
    DistinctCard(Flatten(groups));
  }

  /** Python's find_all_clearable_groups: scans the board row by row, skipping cells already
      seen in an earlier component, and keeps each component of size three or more. The groups
      are whole components, pairwise disjoint, and together they hold exactly the cells whose
      component has size three or more, each once. */
  method FindAllClearableGroups(g: Grid) returns (groups: seq<seq<Pos>>)
    requires IsRect(g)
    ensures forall k :: 0 <= k < |groups| ==> IsGroup(g, groups[k])
    ensures Disjoint(groups)
    ensures Elems(Flatten(groups)) == ClearableCells(g)
    ensures NoDup(Flatten(groups)) && |Flatten(groups)| == |ClearableCells(g)|
  {
    var visitedGlobal: set<Pos> := {};
    groups := [];
    for i := 0 to |g|
      invariant VisitedInv(g, visitedGlobal) && GroupsInv(g, visitedGlobal, groups)
      invariant ScannedBefore(g, visitedGlobal, i, 0)
    {
      for j := 0 to Width(g)
        invariant VisitedInv(g, visitedGlobal) && GroupsInv(g, visitedGlobal, groups)
        invariant ScannedBefore(g, visitedGlobal, i, j)
      {
        var p := Pos(i, j);
        if p !in visitedGlobal {
          var connected := FindConnected(g, p);
          if g[i][j] != Empty {
            ScanStepVisited(g, visitedGlobal, p);
            if |connected| >= 3 {
              ScanStepAppend(g, visitedGlobal, groups, connected);
            } else {
              ScanStepSmall(g, visitedGlobal, groups, connected);
            }
          }
          if |connected| >= 3 {
            groups := groups + [connected];
          }
          visitedGlobal := visitedGlobal + Elems(connected);
        }
        ScanSkip(g, visitedGlobal, i, j);
      }
      ScanNextRow(g, visitedGlobal, i);
    }
    ScanDone(g, visitedGlobal, groups);
  }
}
