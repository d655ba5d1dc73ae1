/** The board the solver works on, and what it means for one board to be a
    narrowing of another and for a full assignment of digits to solve the
    puzzle. */
module Boards {
  import opened Strings
  import opened Topology

  /** The candidate digits of one box, in the order they were written. */
  type Candidates = string
  /** `values`: each box name mapped to its candidates. Every board the
      solver builds has the 81 boxes as keys, inserted in `boxes` order, and
      Python's dictionaries keep that order, so `values.keys()` is `Boxes`. */
  type Board = map<Cell, Candidates>

  const Digits: string := "123456789"

  /** A character among `Digits`. */
  predicate IsDigit(c: char) {
    '1' <= c <= '9'
  }

  lemma DigitsAreDigits(c: char)
    ensures c in Digits <==> IsDigit(c)
  {
  }

  predicate IsBoard(v: Board) {
    v.Keys == BoxSet
  }

  /** A unit list over the boxes of the grid. */
  predicate UnitTable(units: seq<Unit>) {
    forall u, b :: u in units && b in u ==> b in BoxSet
  }

  /** A peer table over the boxes of the grid. */
  predicate PeerTable(peers: map<Cell, set<Cell>>) {
    BoxSet <= peers.Keys && forall b :: b in BoxSet ==> peers[b] <= BoxSet
  }

  /** `w` keeps the keys of `v` and every box of `w` holds a subsequence of
      the candidates it holds in `v`: candidates never grow. */
  predicate Refines(w: Board, v: Board) {
    w.Keys == v.Keys && forall b :: b in v ==> Subseq(w[b], v[b])
  }

  lemma RefinesRefl(v: Board)
    ensures Refines(v, v)
  {
    forall b | b in v
      ensures Subseq(v[b], v[b])
    {
      SubseqRefl(v[b]);
    }
  }

  lemma RefinesTrans(a: Board, b: Board, c: Board)
    requires Refines(a, b) && Refines(b, c)
    ensures Refines(a, c)
  {
    forall x | x in c
      ensures Subseq(a[x], c[x])
    {
      SubseqTrans(a[x], b[x], c[x]);
    }
  }

  /** Narrowing one box of a narrowing of `v` gives a narrowing of both. */
  lemma UpdateRefines(v: Board, w: Board, p: Cell, x: Candidates)
    requires Refines(w, v) && p in w && Subseq(x, w[p])
    ensures w[p := x].Keys == w.Keys
    ensures Refines(w[p := x], v) && Refines(w[p := x], w)
  {
    var w' := w[p := x];
    assert w'.Keys == w.Keys;
    forall b | b in v
      ensures Subseq(w'[b], v[b]) && Subseq(w'[b], w[b])
    {
      if b == p {
        SubseqTrans(x, w[p], v[p]);
      } else {
        SubseqRefl(w[b]);
      }
    }
  }

  predicate NoEmpty(v: Board) {
    forall b :: b in v ==> v[b] != []
  }

  /** `all(len(values[s]) == 1 for s in boxes)` */
  predicate Solved(v: Board)
    requires IsBoard(v)
  {
    forall b :: b in Boxes ==> |v[b]| == 1
  }

  /** The number of boxes in `keys` with exactly one candidate. */
  function CountSolved(v: Board, keys: seq<Cell>): (n: nat)
    requires forall k :: k in keys ==> k in v
    ensures n <= |keys|
  {
    if keys == [] then 0
    else (if |v[keys[0]]| == 1 then 1 else 0) + CountSolved(v, keys[1..])
  }

  /** `len([box for box in values.keys() if len(values[box]) == 1])` */
  function SolvedCount(v: Board): (n: nat)
    requires IsBoard(v)
    ensures n <= 81
  {
    BoxesShape();
    CountSolved(v, Boxes)
  }

  /** A box solved in `a` that is still solved in `b` keeps the count from
      falling. */
  lemma {:induction false} CountSolvedMono(a: Board, b: Board, keys: seq<Cell>)
    requires forall k :: k in keys ==> k in a && k in b
    requires forall k :: k in keys && |a[k]| == 1 ==> |b[k]| == 1
    ensures CountSolved(a, keys) <= CountSolved(b, keys)
  {
    if keys != [] {
      CountSolvedMono(a, b, keys[1..]);
    }
  }

  /** The total number of candidates over `keys`. */
  function SumLengths(v: Board, keys: seq<Cell>): nat
    requires forall k :: k in keys ==> k in v
  {
    if keys == [] then 0 else |v[keys[0]]| + SumLengths(v, keys[1..])
  }

  /** The number of candidates on the whole board; `search` lowers it on
      every recursive call. */
  function Total(v: Board): nat
    requires IsBoard(v)
  {
    BoxesShape();
    SumLengths(v, Boxes)
  }

  lemma {:induction false} SumLengthsMono(a: Board, b: Board, keys: seq<Cell>)
    requires forall k :: k in keys ==> k in a && k in b
    requires forall k :: k in keys ==> |a[k]| <= |b[k]|
    ensures SumLengths(a, keys) <= SumLengths(b, keys)
  {
    if keys != [] {
      SumLengthsMono(a, b, keys[1..]);
    }
  }

  /** Changing one box that occurs once in `keys` changes the total by the
      change in that box's length. */
  lemma {:induction false} SumLengthsUpdate(v: Board, keys: seq<Cell>, s: Cell, x: Candidates)
    requires forall k :: k in keys ==> k in v
    requires Distinct(keys) && s in keys
    ensures SumLengths(v[s := x], keys) == SumLengths(v, keys) - |v[s]| + |x|
  {
    if keys[0] == s {
      assert s !in keys[1..];
      SumLengthsUnchanged(v, v[s := x], keys[1..]);
    } else {
      SumLengthsUpdate(v, keys[1..], s, x);
    }
  }

  lemma {:induction false} SumLengthsUnchanged(a: Board, b: Board, keys: seq<Cell>)
    requires forall k :: k in keys ==> k in a && k in b && a[k] == b[k]
    ensures SumLengths(a, keys) == SumLengths(b, keys)
  {
    if keys != [] {
      SumLengthsUnchanged(a, b, keys[1..]);
    }
  }

  /** A narrowing never raises the total. */
  lemma RefinesTotal(w: Board, v: Board)
    requires IsBoard(v) && Refines(w, v)
    ensures Total(w) <= Total(v)
  {
    BoxesShape();
    forall k | k in Boxes
      ensures |w[k]| <= |v[k]|
    {
      SubseqLength(w[k], v[k]);
    }
    SumLengthsMono(w, v, Boxes);
  }

  /** Fixing a box that had several candidates to one of them lowers the
      total. */
  lemma AssignLowersTotal(v: Board, s: Cell, c: char)
    requires IsBoard(v) && s in v && |v[s]| > 1
    ensures IsBoard(v[s := [c]]) && Total(v[s := [c]]) < Total(v)
  {
    var w := v[s := [c]];
    assert w.Keys == v.Keys;
    BoxesShape();
    assert s in Boxes;
    SumLengthsUpdate(v, Boxes, s, [c]);
    assert Total(w) == SumLengths(w, Boxes);
  }

  /** A full assignment of one character to every box. */
  type Solution = map<Cell, char>

  /** `sol` fills boxes with digits so that every unit holds every digit
      and no two boxes of a unit hold the same one. */
  ghost predicate IsSolution(sol: Solution, units: seq<Unit>) {
    && (forall b :: b in sol ==> IsDigit(sol[b]))
    && (forall u, a, b :: u in units && a in u && b in u && a != b && a in sol && b in sol ==> sol[a] != sol[b])
    && (forall u, d :: u in units && d in Digits ==> exists b :: b in u && b in sol && sol[b] == d)
  }

  /** Two different boxes sharing a unit get different digits. */
  lemma SolutionPeersDiffer(sol: Solution, units: seq<Unit>, a: Cell, b: Cell)
    requires IsSolution(sol, units) && ShareUnit(units, a, b) && a != b && a in sol && b in sol
    ensures sol[a] != sol[b]
  {
    var u :| u in units && a in u && b in u;
  }

  /** `sol` picks, for every box of `v`, one of that box's candidates. */
  ghost predicate Agrees(sol: Solution, v: Board) {
    forall b :: b in v ==> b in sol && sol[b] in v[b]
  }

  /** Changing one box to a list that still holds the solution's digit
      keeps the solution in agreement. */
  lemma AgreesUpdate(sol: Solution, v: Board, b: Cell, x: Candidates)
    requires Agrees(sol, v) && b in sol && sol[b] in x
    ensures Agrees(sol, v[b := x])
  {
  }

  /** Going from `v` to `w` loses no solution. */
  ghost predicate KeepsSolutions(v: Board, w: Board, units: seq<Unit>) {
    forall sol :: IsSolution(sol, units) && Agrees(sol, v) ==> Agrees(sol, w)
  }

  /** No solution picks its digits among the candidates of `v`. */
  ghost predicate NoSolution(v: Board, units: seq<Unit>) {
    forall sol :: IsSolution(sol, units) ==> !Agrees(sol, v)
  }

  /** Every listed peer of a box is another box sharing a unit with it: the
      condition under which removing a solved box's digit from its peers is
      a valid deduction. */
  ghost predicate PeersWithin(peers: map<Cell, set<Cell>>, units: seq<Unit>) {
    forall b, p :: b in peers && p in peers[b] ==> p != b && ShareUnit(units, b, p)
  }

  /** No unit lists a box twice. */
  predicate UnitsDistinct(units: seq<Unit>) {
    forall u :: u in units ==> Distinct(u)
  }

  lemma KeepsSolutionsTrans(a: Board, b: Board, c: Board, units: seq<Unit>)
    requires KeepsSolutions(a, b, units) && KeepsSolutions(b, c, units)
    ensures KeepsSolutions(a, c, units)
  {
  }
}
