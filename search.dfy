/** `search`: depth-first backtracking over the candidates of the
    most-constrained box, with `reduce_puzzle` run at every node. */
module Backtracking {
  import opened Wrappers
  import opened Strings
  import opened Topology
  import opened Boards
  import opened Propagation
  import opened Reduce

  /** Fixing box `s` of `v` to its candidate `c` narrows `v`. */
  lemma AssignRefines(v: Board, values: Board, s: Cell, c: char)
    requires Refines(v, values) && s in v && c in v[s]
    ensures Refines(v[s := [c]], values) && Refines(v[s := [c]], v)
  {
    RefinesRefl(v);
    SingletonSubseq(c, v[s]);
    UpdateRefines(v, v, s, [c]);
    RefinesTrans(v[s := [c]], v, values);
  }

  /** A solution agreeing with `v` agrees with `v` once box `s` is fixed
      to the digit the solution puts there. */
  lemma BranchesCover(v: Board, s: Cell, sol: Solution)
    requires s in v && Agrees(sol, v)
    ensures exists j :: 0 <= j < |v[s]| && v[s][j] == sol[s] && Agrees(sol, v[s := [v[s][j]]])
  {
    var j :| 0 <= j < |v[s]| && v[s][j] == sol[s];
    AgreesUpdate(sol, v, s, [v[s][j]]);
  }

  /** None of the first `i` branches of box `s` has a solution. */
  ghost predicate BranchesFail(v: Board, s: Cell, i: nat, units: seq<Unit>)
    requires s in v && i <= |v[s]|
  {
    forall j :: 0 <= j < i ==> NoSolution(v[s := [v[s][j]]], units)
  }

  lemma BranchesFailExtend(v: Board, s: Cell, i: nat, units: seq<Unit>)
    requires s in v && i < |v[s]|
    requires BranchesFail(v, s, i, units) && NoSolution(v[s := [v[s][i]]], units)
    ensures BranchesFail(v, s, i + 1, units)
  {
  }

  /** A board that is neither solved nor holds an empty box has a box to
      branch on. */
  lemma UnsolvedHasChoice(v: Board)
    requires IsBoard(v) && NoEmpty(v) && !Solved(v)
    ensures exists k :: k in Boxes && |v[k]| > 1
  {
    var k :| k in Boxes && |v[k]| != 1;
    BoxesIndexed();
    assert v[k] != [];
  }

  /** When no branch of box `s` has a solution, `v` has none. */
  lemma NoBranchNoSolution(values: Board, v: Board, s: Cell, units: seq<Unit>)
    requires s in v && KeepsSolutions(values, v, units)
    requires BranchesFail(v, s, |v[s]|, units)
    ensures NoSolution(values, units)
  {
    forall sol | IsSolution(sol, units) && Agrees(sol, values)
      ensures false
    {
      BranchesCover(v, s, sol);
    }
  }

  /** `search(values)`. The board is reduced first; a solved board is
      returned as it is; otherwise the box with more than one candidate that
      comes first in (candidate count, name) order is fixed to each of its
      candidates in turn, on a copy of the board, and the first branch that
      succeeds is the answer. `None` stands for both the `False` of a failed
      reduction and the `None` of a loop in which every branch failed.
      `withTwins` says whether the passes of `reduce_puzzle` include
      `naked_twins`. */
  method Search(values: Board, peers: map<Cell, set<Cell>>, units: seq<Unit>, withTwins: bool)
    returns (r: Option<Board>)
    requires IsBoard(values) && PeerTable(peers) && UnitTable(units)
    ensures r.Some? ==> IsBoard(r.value) && Refines(r.value, values)
    ensures r.Some? ==> Solved(r.value) && Settled(r.value, peers)
    ensures Sound(peers, units) && r.None? ==> NoSolution(values, units)
    decreases Total(values)
  {
    var reduced := ReducePuzzle(values, peers, units, withTwins);
    if reduced.None? {
      return None;
    }
    var v := reduced.value;
    if Solved(v) {
      return Some(v);
    }
    UnsolvedHasChoice(v);
    BoxesIndexed();
    var s := Fewest(v, Boxes);
    RefinesTotal(v, values);
    for i := 0 to |v[s]|
      invariant Sound(peers, units) ==> BranchesFail(v, s, i, units)
    {
      var value := v[s][i];
      var newSudoku := v[s := [value]];
      AssignLowersTotal(v, s, value);
      AssignRefines(v, values, s, value);
      var attempt := Search(newSudoku, peers, units, withTwins);
      if attempt.Some? {
        RefinesTrans(attempt.value, newSudoku, values);
        return attempt;
      }
      if Sound(peers, units) {
        BranchesFailExtend(v, s, i, units);
      }
    }
    if Sound(peers, units) {
      NoBranchNoSolution(values, v, s, units);
    }
    r := None;
  }
}
