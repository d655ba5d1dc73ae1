/** `reduce_puzzle`: the propagation rules applied pass after pass until a
    pass leaves the number of solved boxes where it was, or some box runs
    out of candidates. */
module Reduce {
  import opened Wrappers
  import opened Strings
  import opened Topology
  import opened Boards
  import opened Propagation
  import opened Twins

  /** The tables let the rules lose no solution: every listed peer shares a
      unit with its box, and no unit names a box twice. */
  ghost predicate Sound(peers: map<Cell, set<Cell>>, units: seq<Unit>) {
    PeersWithin(peers, units) && UnitsDistinct(units)
  }

  /** No solved box shares its digit with one of its peers, so `eliminate`
      has nothing left to remove. */
  predicate Settled(v: Board, peers: map<Cell, set<Cell>>) {
    Cleared(v, v, peers)
  }

  /** A board with an empty box agrees with no solution. */
  lemma EmptyNoSolution(values: Board, v: Board, units: seq<Unit>)
    requires KeepsSolutions(values, v, units) && !NoEmpty(v)
    ensures NoSolution(values, units)
  {
    var b :| b in v && v[b] == [];
    assert forall sol :: !Agrees(sol, v);
  }

  /** A box solved in `a` is solved in `b` as well, and both boards count
      the same number of solved boxes: then every box solved in `b` was
      already solved in `a`. */
  lemma {:induction false} CountSolvedSame(a: Board, b: Board, keys: seq<Cell>)
    requires forall k :: k in keys ==> k in a && k in b
    requires forall k :: k in keys && |a[k]| == 1 ==> |b[k]| == 1
    requires CountSolved(a, keys) == CountSolved(b, keys)
    ensures forall k :: k in keys && |b[k]| == 1 ==> |a[k]| == 1
  {
    if keys != [] {
      CountSolvedMono(a, b, keys[1..]);
      CountSolvedSame(a, b, keys[1..]);
    }
  }

  /** Narrowing without emptying a box keeps every solved box solved. */
  lemma SolvedStaySolved(v: Board, w: Board)
    requires Refines(w, v) && NoEmpty(w)
    ensures forall b :: b in v && |v[b]| == 1 ==> w[b] == v[b]
  {
    forall b | b in v && |v[b]| == 1
      ensures w[b] == v[b]
    {
      assert v[b] == [v[b][0]];
      SubseqOfSingleton(w[b], v[b][0]);
    }
  }

  /** A pass that started from `p`, ran `eliminate` to `e` and narrowed
      further to `w` without raising the solved count or emptying a box
      ends on a settled board. */
  lemma StalledIsSettled(p: Board, e: Board, w: Board, peers: map<Cell, set<Cell>>)
    requires IsBoard(p) && Refines(e, p) && Refines(w, e) && NoEmpty(w)
    requires Cleared(p, e, peers)
    requires SolvedCount(w) == SolvedCount(p)
    ensures Settled(w, peers)
  {
    RefinesTrans(w, e, p);
    SolvedStaySolved(p, w);
    BoxesIndexed();
    CountSolvedSame(p, w, Boxes);
    forall b | b in w && b in peers && |w[b]| == 1
      ensures ClearedAt(w, w, peers, b)
    {
      assert |p[b]| == 1;
      SandwichSame(w[b], e[b], p[b]);
      forall q | q in peers[b] && q in w
        ensures w[b][0] !in w[q]
      {
        AbsentStaysAbsent(w[q], e[q], p[b][0]);
      }
    }
  }

  /** A pass that empties no box and changes the solved count raises it. */
  lemma PassRaisesCount(p: Board, w: Board)
    requires IsBoard(p) && Refines(w, p) && NoEmpty(w)
    ensures SolvedCount(p) <= SolvedCount(w)
  {
    SolvedStaySolved(p, w);
    BoxesIndexed();
    CountSolvedMono(p, w, Boxes);
  }

  /** `reduce_puzzle(values)`. Each pass applies `eliminate` with the peer
      table `peers`, then `only_choice` and, when `withTwins` holds (the
      solver under p-sudoku/), `naked_twins` over `units`; the top-level
      solution.py runs its passes without `naked_twins`. The result is
      `None` where the source returns `False`. */
  method ReducePuzzle(values: Board, peers: map<Cell, set<Cell>>, units: seq<Unit>, withTwins: bool)
    returns (r: Option<Board>)
    requires IsBoard(values) && PeerTable(peers) && UnitTable(units)
    ensures r.Some? ==> IsBoard(r.value) && Refines(r.value, values)
    ensures r.Some? ==> NoEmpty(r.value) && Settled(r.value, peers)
    ensures Sound(peers, units) && r.Some? ==> KeepsSolutions(values, r.value, units)
    ensures Sound(peers, units) && r.None? ==> NoSolution(values, units)
  {
    var v := values;
    RefinesRefl(values);
    var stalled := false;
    while !stalled
      invariant IsBoard(v) && Refines(v, values)
      invariant Sound(peers, units) ==> KeepsSolutions(values, v, units)
      invariant stalled ==> NoEmpty(v) && Settled(v, peers)
      decreases 81 - SolvedCount(v) + (if stalled then 0 else 1)
    {
      var before := SolvedCount(v);
      var start := v;
      var e := Eliminate(v, peers);
      var o := OnlyChoice(e, units);
      RefinesTrans(o, e, start);
      var w := o;
      if withTwins {
        w := NakedTwins(o, units);
        RefinesTrans(w, o, start);
      } else {
        RefinesRefl(o);
      }
      if Sound(peers, units) {
        JustifiedKeepsSolutions(start, e, peers, units);
        KeepsSolutionsTrans(start, e, o, units);
        KeepsSolutionsTrans(start, o, w, units);
        KeepsSolutionsTrans(values, start, w, units);
      }
      RefinesTrans(w, start, values);
      v := w;
      var after := SolvedCount(v);
      stalled := before == after;
      if !NoEmpty(v) {
        if Sound(peers, units) {
          EmptyNoSolution(values, v, units);
        }
        return None;
      }
      PassRaisesCount(start, v);
      if stalled {
        RefinesTrans(w, o, e);
        StalledIsSettled(start, e, w, peers);
      }
    }
    r := Some(v);
  }
}
