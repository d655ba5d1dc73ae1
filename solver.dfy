/** `solve(grid, is_diag)` of p-sudoku/solution.py: parse, then search, with
    the unit list and peer table picked by the diagonal flag; and what a
    solved, settled board means for the puzzle. */
module Solver {
  import opened Wrappers
  import opened Strings
  import opened Topology
  import opened Boards
  import opened Propagation
  import opened Reduce
  import opened Backtracking
  import opened Codec

  /** Every unit is nine different boxes of the grid. */
  predicate NineBoxUnits(units: seq<Unit>) {
    forall u :: u in units ==> |u| == 9 && Distinct(u) && forall b :: b in u ==> b in BoxSet
  }

  /** Every box sharing a unit with `b` is listed among its peers. */
  ghost predicate PeersComplete(peers: map<Cell, set<Cell>>, units: seq<Unit>) {
    forall b, q :: b in BoxSet && q in BoxSet && q != b && ShareUnit(units, b, q) ==> b in peers && q in peers[b]
  }

  /** A unit list of nine-box units and a peer table that lists, for every
      box, exactly the other boxes sharing one of those units. */
  ghost predicate Matched(units: seq<Unit>, peers: map<Cell, set<Cell>>) {
    && NineBoxUnits(units) && UnitTable(units)
    && PeerTable(peers) && Sound(peers, units) && PeersComplete(peers, units)
  }

  /** Both unit lists are lists of nine-box units over the grid. */
  lemma UnitTables()
    ensures NineBoxUnits(UnitList) && UnitTable(UnitList) && UnitsDistinct(UnitList)
    ensures NineBoxUnits(DiagUnitList) && UnitTable(DiagUnitList) && UnitsDistinct(DiagUnitList)
  {
    UnitsShape();
  }

  /** Both peer tables are tables over the grid. */
  lemma PeerTables()
    ensures PeerTable(Peers) && PeerTable(DiagPeers)
  {
    TablesKeys();
    forall b, q | b in BoxSet && q in Peers[b]
      ensures q in BoxSet
    {
      PeersExact(b, q);
    }
    forall b, q | b in BoxSet && q in DiagPeers[b]
      ensures q in BoxSet
    {
      DiagPeersExact(b, q);
    }
  }

  /** `peers` lists exactly the boxes sharing a unit of `unitlist`. */
  lemma PeersMatchUnits()
    ensures PeersWithin(Peers, UnitList) && PeersComplete(Peers, UnitList)
  {
    TablesKeys();
    forall b, q | b in Peers && q in Peers[b]
      ensures q != b && ShareUnit(UnitList, b, q)
    {
      PeersExact(b, q);
    }
    forall b, q | b in BoxSet && q in BoxSet && q != b && ShareUnit(UnitList, b, q)
      ensures q in Peers[b]
    {
      PeersExact(b, q);
    }
  }

  /** `diag_peers` lists exactly the boxes sharing a unit of
      `diag_unitlist`. */
  lemma DiagPeersMatchUnits()
    ensures PeersWithin(DiagPeers, DiagUnitList) && PeersComplete(DiagPeers, DiagUnitList)
  {
    TablesKeys();
    forall b, q | b in DiagPeers && q in DiagPeers[b]
      ensures q != b && ShareUnit(DiagUnitList, b, q)
    {
      DiagPeersExact(b, q);
    }
    forall b, q | b in BoxSet && q in BoxSet && q != b && ShareUnit(DiagUnitList, b, q)
      ensures q in DiagPeers[b]
    {
      DiagPeersExact(b, q);
    }
  }

  /** `unitlist` goes with `peers` and `diag_unitlist` with `diag_peers`:
      the choice `naked_twins` and `only_choice` make for the unit list,
      carried over to the peer table. */
  lemma MatchedTables()
    ensures Matched(UnitList, Peers) && Matched(DiagUnitList, DiagPeers)
  {
    UnitTables();
    PeerTables();
    PeersMatchUnits();
    DiagPeersMatchUnits();
  }

  /** As written, `eliminate` reads `diag_peers` for a puzzle without
      diagonals, which lists "D4" as a peer of "A1" although the two share
      no row, column or square; and it reads `peers` in diagonal mode, which
      does not list "E5" as a peer of "A1" although both lie on the main
      diagonal. */
  lemma AsWrittenTablesSwapped()
    ensures "A1" in DiagPeers && "D4" in DiagPeers["A1"] && !ShareUnit(UnitList, "A1", "D4")
    ensures !Sound(DiagPeers, UnitList)
    ensures "A1" in Peers && "E5" !in Peers["A1"] && ShareUnit(DiagUnitList, "A1", "E5")
  {
    IsBox("A1");
    TablesKeys();
    FarFromA1();
    MainDiagonal();
    DiagPeersExact("A1", "D4");
    PeersExact("A1", "E5");
  }

  /** No row, column or square of `unitlist` holds "A1" together with "D4"
      or with "E5". */
  lemma FarFromA1()
    ensures !ShareUnit(UnitList, "A1", "D4")
    ensures !ShareUnit(UnitList, "A1", "E5")
  {
    assert RowBands[0] == "ABC" && RowBands[1] == "DEF" && RowBands[2] == "GHI";
    NoCommonUnit("A1", "D4");
    NoCommonUnit("A1", "E5");
  }

  /** The puzzle with the digit 1 given in "A1" and in "D4" and nothing
      else: two givens that no row, column or square relates. */
  const TwoOnes: string := seq(81, i => if i == 0 || i == 30 then '1' else '.')

  /** `eliminate` with `diag_peers`, the table read as written for a
      puzzle without diagonals, empties "A1" or "D4" of `TwoOnes`, so
      `reduce_puzzle` returns `False` and `solve` reports no solution,
      although the givens do not conflict. */
  lemma AsWrittenEmptiesBox(r: Board)
    requires GridValues(TwoOnes).Some?
    requires Refines(r, GridValues(TwoOnes).value)
    requires Cleared(GridValues(TwoOnes).value, r, DiagPeers)
    ensures !ShareUnit(UnitList, "A1", "D4")
    ensures "A1" in r && "D4" in r && (r["A1"] == [] || r["D4"] == [])
  {
    var v := GridValues(TwoOnes).value;
    AsWrittenTablesSwapped();
    TwoOnesGivens();
    IsBox("A1");
    IsBox("D4");
    TablesKeys();
    DiagPeersExact("D4", "A1");
    assert ClearedAt(v, r, DiagPeers, "A1") && ClearedAt(v, r, DiagPeers, "D4");
    SubseqOfSingleton(r["A1"], '1');
    SubseqOfSingleton(r["D4"], '1');
  }

  /** `solve` as written, without diagonals, reports no solution for
      `TwoOnes`, whose two givens do not conflict. */
  method TwoOnesAsWritten() returns (r: Outcome)
    ensures r.Unsolvable?
  {
    r := SolveAsWritten(TwoOnes, false);
    IsBox("A1");
    IsBox("D4");
    if r.Answer? {
      TwoOnesNeverSettled(r.board);
    }
  }

  /** No board keeping the givens of `TwoOnes` is settled under
      `diag_peers`: "D4" is a peer of "A1" there and both hold 1. */
  lemma TwoOnesNeverSettled(b: Board)
    requires KeepsGivens(TwoOnes, b) && "A1" in b && "D4" in b
    ensures !Settled(b, DiagPeers)
  {
    BoxesCorners();
    AsWrittenTablesSwapped();
    assert b[Boxes[0]] == [TwoOnes[0]] && b[Boxes[30]] == [TwoOnes[30]];
    assert b["A1"] == "1" && b["D4"] == "1";
    assert Settled(b, DiagPeers) ==> ClearedAt(b, b, DiagPeers, "A1");
  }

  /** `TwoOnes` gives 1 in "A1" and in "D4". */
  lemma TwoOnesGivens()
    ensures GridValues(TwoOnes).Some?
    ensures "A1" in GridValues(TwoOnes).value && GridValues(TwoOnes).value["A1"] == "1"
    ensures "D4" in GridValues(TwoOnes).value && GridValues(TwoOnes).value["D4"] == "1"
  {
    BoxesCorners();
    var v := GridValues(TwoOnes).value;
    assert v[Boxes[0]] == CellValue(TwoOnes[0]) && v[Boxes[30]] == CellValue(TwoOnes[30]);
  }

  lemma BoxesCorners()
    ensures |Boxes| == 81 && Boxes[0] == "A1" && Boxes[30] == "D4"
  {
    assert Boxes[0] == [Rows[0 / 9], Cols[0 % 9]];
    assert Boxes[30] == [Rows[30 / 9], Cols[30 % 9]];
  }

  /** `peers`, the table read as written in diagonal mode, still only
      relates boxes that share a unit once the diagonals are units too: the
      rules lose no solution there, they only miss the diagonal
      eliminations. */
  lemma AsWrittenDiagonalSound()
    ensures Sound(Peers, DiagUnitList) && PeerTable(Peers) && UnitTable(DiagUnitList)
  {
    UnitTables();
    PeerTables();
    PeersWithinDiagonals();
  }

  lemma PeersWithinDiagonals()
    ensures PeersWithin(Peers, DiagUnitList)
  {
    PeersMatchUnits();
    forall b, q | b in Peers && q in Peers[b]
      ensures q != b && ShareUnit(DiagUnitList, b, q)
    {
      ShareUnitWider(b, q);
    }
  }

  /** Every candidate on the board is one of the digits 1 to 9. */
  predicate DigitsOnly(v: Board) {
    forall b, c :: b in v && c in v[b] ==> IsDigit(c)
  }

  /** The puzzle string holds only digits 1 to 9 and the placeholder. */
  predicate PuzzleChars(grid: string) {
    forall i :: 0 <= i < |grid| ==> grid[i] == '.' || IsDigit(grid[i])
  }

  lemma PuzzleDigitsOnly(grid: string)
    requires |grid| == 81 && PuzzleChars(grid)
    ensures GridValues(grid).Some? && DigitsOnly(GridValues(grid).value)
  {
    var v := GridValues(grid).value;
    forall b | b in v
      ensures forall c :: c in v[b] ==> IsDigit(c)
    {
      GridBoxDigits(grid, b);
    }
  }

  lemma GridBoxDigits(grid: string, b: Cell)
    requires |grid| == 81 && PuzzleChars(grid)
    requires b in GridValues(grid).value
    ensures forall c :: c in GridValues(grid).value[b] ==> IsDigit(c)
  {
    BoxesIndexed();
    var k :| 0 <= k < 81 && Boxes[k] == b;
    assert grid[k] == '.' || IsDigit(grid[k]);
    forall c | c in CellValue(grid[k])
      ensures IsDigit(c)
    {
      CellValueDigits(grid[k], c);
    }
  }

  /** A placeholder stands for the nine digits, a digit for itself. */
  lemma CellValueDigits(ch: char, c: char)
    requires ch == '.' || IsDigit(ch)
    requires c in CellValue(ch)
    ensures IsDigit(c)
  {
    DigitsAreDigits(c);
  }

  lemma DigitsOnlyShrink(w: Board, v: Board)
    requires Refines(w, v) && DigitsOnly(v)
    ensures DigitsOnly(w)
  {
    forall b, c | b in w && c in w[b]
      ensures IsDigit(c)
    {
      SubseqMember(w[b], v[b], c);
    }
  }

  /** The digit of every box of a board whose boxes all hold one candidate. */
  function SolutionOf(v: Board): (sol: Solution)
    requires forall b :: b in v ==> |v[b]| == 1
    ensures sol.Keys == v.Keys
    ensures forall b :: b in v ==> v[b] == [sol[b]]
  {
    map b | b in v :: v[b][0]
  }

  const DigitSet: set<char> := {'1', '2', '3', '4', '5', '6', '7', '8', '9'}

  /** Nine different digits are all nine digits: a list without repeats,
      drawn from a set no larger than the list, covers the set. */
  lemma DistinctCover(cs: seq<char>, s: set<char>)
    requires Distinct(cs) && |s| <= |cs|
    requires forall c :: c in cs ==> c in s
    ensures forall x :: x in s ==> x in cs
  {
    var members := set c | c in cs;
    DistinctCount(cs);
    forall x | x in s
      ensures x in cs
    {
      if x !in cs {
        assert members <= s - {x};
        SubsetCount(members, s - {x});
      }
    }
  }

  lemma {:induction false} SubsetCount(a: set<char>, b: set<char>)
    requires a <= b
    ensures |a| <= |b|
    decreases |b|
  {
    if a != {} {
      var x :| x in a;
      SubsetCount(a - {x}, b - {x});
    }
  }

  /** A unit whose nine boxes hold nine different digits holds every
      digit. */
  lemma UnitCoversDigits(sol: Solution, u: Unit, d: char)
    requires |u| == 9 && forall b :: b in u ==> b in sol && IsDigit(sol[b])
    requires forall a, b :: a in u && b in u && a != b ==> sol[a] != sol[b]
    requires Distinct(u) && IsDigit(d)
    ensures exists b :: b in u && b in sol && sol[b] == d
  {
    var cs := seq(9, i requires 0 <= i < 9 => sol[u[i]]);
    assert Distinct(cs) by {
      forall i, j | 0 <= i < j < 9
        ensures cs[i] != cs[j]
      {
        assert u[i] in u && u[j] in u;
      }
    }
    DigitSetShape();
    assert forall c :: c in cs ==> c in DigitSet by {
      forall c | c in cs
        ensures IsDigit(c)
      {
        var i :| 0 <= i < 9 && cs[i] == c;
        assert u[i] in u;
      }
    }
    DistinctCover(cs, DigitSet);
    assert d in cs;
    var i :| 0 <= i < 9 && cs[i] == d;
    assert u[i] in u;
  }

  /** `DigitSet` is the nine digits. */
  lemma DigitSetShape()
    ensures |DigitSet| == 9
    ensures forall c :: c in DigitSet <==> IsDigit(c)
  {
  }

  /** A board on which every box holds one digit and no box shares its
      digit with a peer is a solution of the puzzle, with the peer table
      listing every box that shares a unit. */
  lemma SettledIsSolution(v: Board, peers: map<Cell, set<Cell>>, units: seq<Unit>)
    requires IsBoard(v) && Solved(v) && Settled(v, peers) && DigitsOnly(v)
    requires PeersComplete(peers, units) && NineBoxUnits(units)
    ensures forall b :: b in v ==> |v[b]| == 1
    ensures IsSolution(SolutionOf(v), units) && Agrees(SolutionOf(v), v)
  {
    BoxesIndexed();
    var sol := SolutionOf(v);
    SettledDistinct(v, peers, units, sol);
    SettledCovers(v, units, sol);
  }

  /** Two boxes of a unit are peers, so a settled board gives them
      different digits. */
  lemma SettledDistinct(v: Board, peers: map<Cell, set<Cell>>, units: seq<Unit>, sol: Solution)
    requires IsBoard(v) && Settled(v, peers) && PeersComplete(peers, units) && NineBoxUnits(units)
    requires sol.Keys == v.Keys && forall b :: b in v ==> v[b] == [sol[b]]
    ensures forall u, a, b :: u in units && a in u && b in u && a != b && a in sol && b in sol ==> sol[a] != sol[b]
  {
    forall u, a, b | u in units && a in u && b in u && a != b
      ensures sol[a] != sol[b]
    {
      assert ShareUnit(units, a, b);
      assert ClearedAt(v, v, peers, a);
      assert sol[a] in v[a];
    }
  }

  /** Each unit of nine boxes with nine different digits holds every
      digit, and every digit comes from the board. */
  lemma SettledCovers(v: Board, units: seq<Unit>, sol: Solution)
    requires IsBoard(v) && DigitsOnly(v) && NineBoxUnits(units)
    requires sol.Keys == v.Keys && forall b :: b in v ==> v[b] == [sol[b]]
    requires forall u, a, b :: u in units && a in u && b in u && a != b && a in sol && b in sol ==> sol[a] != sol[b]
    ensures forall b :: b in sol ==> IsDigit(sol[b])
    ensures forall u, d :: u in units && d in Digits ==> exists b :: b in u && b in sol && sol[b] == d
  {
    forall b | b in sol
      ensures IsDigit(sol[b])
    {
      assert sol[b] in v[b];
    }
    forall u, d | u in units && d in Digits
      ensures exists b :: b in u && b in sol && sol[b] == d
    {
      DigitsAreDigits(d);
      UnitCoversDigits(sol, u, d);
    }
  }

  /** Every digit given in the grid is the only candidate of its box on
      `board`. */
  predicate KeepsGivens(grid: string, board: Board) {
    forall k :: 0 <= k < |grid| && k < |Boxes| && Boxes[k] in board && grid[k] != '.' ==>
      board[Boxes[k]] == [grid[k]]
  }

  /** Every box of `board` holds one digit, and together they solve the
      puzzle with the unit list `units`. */
  ghost predicate SolvesPuzzle(board: Board, units: seq<Unit>) {
    (forall b :: b in board ==> |board[b]| == 1) && IsSolution(SolutionOf(board), units)
  }

  /** The outcome of `solve`: the source's `AssertionError` for a grid of
      the wrong length, its `False` (or `None`), or the solved board. */
  datatype Outcome = InvalidLength | Unsolvable | Answer(board: Board)

  /** A box solved on the way to a solved board keeps its digit. */
  lemma GivensKept(w: Board, v: Board)
    requires Refines(w, v) && forall b :: b in w ==> |w[b]| == 1
    ensures forall b :: b in v && |v[b]| == 1 ==> w[b] == v[b]
  {
    forall b | b in v && |v[b]| == 1
      ensures w[b] == v[b]
    {
      SubseqLength(w[b], v[b]);
      SubseqSameLength(w[b], v[b]);
    }
  }

  /** `values = grid_values(grid); return search(values)`, with the unit
      list `units` and `eliminate` reading `peers`. A grid of the wrong
      length is rejected. An answer is a solved board that keeps every
      given; with matched tables and a grid of digits and placeholders it
      is a solution of the puzzle. `Unsolvable` is returned only when the
      puzzle has no solution, provided the tables are sound. */
  method SolveWith(grid: string, units: seq<Unit>, peers: map<Cell, set<Cell>>) returns (r: Outcome)
    requires PeerTable(peers) && UnitTable(units)
    ensures r.InvalidLength? <==> |grid| != 81
    ensures r.Answer? ==> |grid| == 81 && IsBoard(r.board) && Solved(r.board) && Settled(r.board, peers)
    ensures r.Answer? ==> KeepsGivens(grid, r.board)
    ensures r.Answer? && PuzzleChars(grid) ==> DigitsOnly(r.board)
    ensures r.Answer? && PuzzleChars(grid) && Matched(units, peers) ==> SolvesPuzzle(r.board, units)
    ensures r.Unsolvable? && Sound(peers, units) ==> |grid| == 81 && NoSolution(GridValues(grid).value, units)
  {
    var values := GridValues(grid);
    if values.None? {
      return InvalidLength;
    }
    var found := Search(values.value, peers, units, true);
    if found.None? {
      return Unsolvable;
    }
    var board := found.value;
    BoxesIndexed();
    assert forall b :: b in board ==> |board[b]| == 1;
    GivensKept(board, values.value);
    forall k | 0 <= k < |grid| && k < |Boxes| && Boxes[k] in board && grid[k] != '.'
      ensures board[Boxes[k]] == [grid[k]]
    {
      GivenAt(grid, k);
    }
    if PuzzleChars(grid) {
      PuzzleDigitsOnly(grid);
      DigitsOnlyShrink(board, values.value);
      if Matched(units, peers) {
        SettledIsSolution(board, peers, units);
      }
    }
    r := Answer(board);
  }

  /** `solve(grid, is_diag)` with `eliminate` reading the peer table that
      matches the unit list of the other rules. The answer is a solution of
      the puzzle (both diagonals included in diagonal mode) that keeps
      every given, and `Unsolvable` means the puzzle has no solution. */
  method Solve(grid: string, diag: bool) returns (r: Outcome)
    ensures r.InvalidLength? <==> |grid| != 81
    ensures r.Answer? ==> |grid| == 81 && IsBoard(r.board) && Solved(r.board)
    ensures r.Answer? ==> KeepsGivens(grid, r.board)
    ensures r.Answer? && PuzzleChars(grid) ==>
      SolvesPuzzle(r.board, if diag then DiagUnitList else UnitList)
    ensures r.Unsolvable? ==> |grid| == 81 && NoSolution(GridValues(grid).value, if diag then DiagUnitList else UnitList)
  {
    MatchedTables();
    r := SolveWith(grid, if diag then DiagUnitList else UnitList, if diag then DiagPeers else Peers);
  }

  /** `solve(grid, is_diag)` as written, `eliminate` reading `peers` in
      diagonal mode and `diag_peers` otherwise. An answer is still a solved
      board keeping every given, and in diagonal mode `Unsolvable` still
      means there is no solution; that the answer satisfies every unit, and
      that `Unsolvable` is right without diagonals, no longer follow (see
      `AsWrittenEmptiesBox`). */
  method SolveAsWritten(grid: string, diag: bool) returns (r: Outcome)
    ensures r.InvalidLength? <==> |grid| != 81
    ensures r.Answer? ==> |grid| == 81 && IsBoard(r.board) && Solved(r.board)
    ensures r.Answer? ==> KeepsGivens(grid, r.board)
    ensures r.Answer? ==> Settled(r.board, if diag then Peers else DiagPeers)
    ensures r.Answer? && PuzzleChars(grid) ==> SolvesPuzzle(r.board, UnitList)
    ensures diag && r.Unsolvable? ==> |grid| == 81 && NoSolution(GridValues(grid).value, DiagUnitList)
  {
    PeerTables();
    UnitTables();
    AsWrittenDiagonalSound();
    r := SolveWith(grid, if diag then DiagUnitList else UnitList, if diag then Peers else DiagPeers);
    if r.Answer? && PuzzleChars(grid) {
      PeersMatchUnits();
      DiagPeersCoverUnits();
      SettledIsSolution(r.board, if diag then Peers else DiagPeers, UnitList);
    }
  }

  /** `diag_peers` lists every box sharing a row, column or square with
      another, so a board settled under it is settled for plain Sudoku. */
  lemma DiagPeersCoverUnits()
    ensures PeersComplete(DiagPeers, UnitList)
  {
    DiagPeersMatchUnits();
    forall b, q | b in BoxSet && q in BoxSet && q != b && ShareUnit(UnitList, b, q)
      ensures b in DiagPeers && q in DiagPeers[b]
    {
      ShareUnitWider(b, q);
    }
  }

  /** Two equal givens in one unit leave the puzzle without a solution. */
  lemma RepeatedGivenUnsolvable(grid: string, units: seq<Unit>, u: Unit, i: nat, j: nat)
    requires |grid| == 81 && i < j < 81 && grid[i] == grid[j] != '.'
    requires u in units && Boxes[i] in u && Boxes[j] in u
    ensures NoSolution(GridValues(grid).value, units)
  {
    var v := GridValues(grid).value;
    var a, b := Boxes[i], Boxes[j];
    BoxesIndexed();
    assert a != b;
    GivenAt(grid, i);
    GivenAt(grid, j);
    assert ShareUnit(units, a, b);
    forall sol
      ensures !(IsSolution(sol, units) && Agrees(sol, v))
    {
      SameGivenClash(sol, v, units, a, b);
    }
  }

  /** A digit given at position `k` of the grid is the only candidate of
      the `k`-th box. */
  lemma GivenAt(grid: string, k: nat)
    requires |grid| == 81 && k < 81 && grid[k] != '.'
    ensures k < |Boxes| && GridValues(grid).value[Boxes[k]] == [grid[k]]
  {
    BoxesIndexed();
  }

  /** Two boxes of one unit solved to the same digit rule out every
      solution. */
  lemma SameGivenClash(sol: Solution, v: Board, units: seq<Unit>, a: Cell, b: Cell)
    requires ShareUnit(units, a, b) && a != b
    requires a in v && b in v && v[a] == v[b] && |v[a]| == 1
    ensures !(IsSolution(sol, units) && Agrees(sol, v))
  {
    if IsSolution(sol, units) && Agrees(sol, v) {
      assert sol[a] in v[a] && sol[b] in v[b];
      SolutionPeersDiffer(sol, units, a, b);
    }
  }
}
