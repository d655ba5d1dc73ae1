/** The fixed structure of the 9x9 grid: the 81 box names, the constraint
    units (rows, columns, 3x3 squares and, in diagonal mode, the two main
    diagonals), and for each box the units it lies in and its peers. */
module Topology {
  import opened Strings

  /** A box name: a row letter followed by a column digit, e.g. "A1". */
  type Cell = string
  /** A constraint unit: nine boxes that must hold nine different digits. */
  type Unit = seq<Cell>

  const Rows: string := "ABCDEFGHI"
  const Cols: string := "123456789"

  predicate Distinct<T(==)>(s: seq<T>) {
    forall i, j :: 0 <= i < j < |s| ==> s[i] != s[j]
  }

  /** Dropping the head of a list without repeats leaves a list without
      repeats that does not hold the head. */
  lemma DistinctTail<T>(s: seq<T>)
    requires Distinct(s) && s != []
    ensures Distinct(s[1..]) && s[0] !in s[1..]
  {
    var rest := s[1..];
    forall i, j | 0 <= i < j < |rest|
      ensures rest[i] != rest[j]
    {
      assert rest[i] == s[i + 1] && rest[j] == s[j + 1];
    }
    forall i | 0 <= i < |rest|
      ensures rest[i] != s[0]
    {
      assert rest[i] == s[i + 1];
    }
  }

  /** Strictly increasing characters. */
  predicate Increasing(s: string) {
    forall i, j :: 0 <= i < j < |s| ==> s[i] < s[j]
  }

  /** Strictly increasing names in Python's string order. */
  predicate SortedNames(s: seq<Cell>) {
    forall i, j :: 0 <= i < j < |s| ==> LexLess(s[i], s[j])
  }

  /** A positive multiple of `n` is at least `n`. */
  lemma MulAtLeast(x: int, n: int)
    requires x >= 1 && n > 0
    ensures x * n >= n
  {
    assert x * n == (x - 1) * n + n;
    assert (x - 1) * n >= 0;
  }

  /** Row-major indexing: position `k` of an `m` by `n` block lies in row
      `k / n` and column `k % n`. */
  lemma RowMajorBounds(k: int, m: int, n: int)
    requires 0 <= k < m * n && n > 0
    ensures 0 <= k / n < m && 0 <= k % n < n
  {
    var q := k / n;
    assert k == q * n + k % n;
    if q >= m {
      MulAtLeast(q - m + 1, n);
    }
  }

  /** The position of row `i`, column `j` in an `n`-wide block. */
  lemma RowMajorIndex(i: int, j: int, n: int)
    requires 0 <= i && 0 <= j < n
    ensures (i * n + j) / n == i && (i * n + j) % n == j
  {
    var k := i * n + j;
    var q, r := k / n, k % n;
    assert k == q * n + r && 0 <= r < n;
    assert (i - q) * n == r - j;
    if i > q {
      MulAtLeast(i - q, n);
    } else if i < q {
      MulAtLeast(q - i, n);
    }
  }

  /** Row `i`, column `j` of an `m` by `n` block is one of its positions. */
  lemma RowMajorInside(i: int, j: int, m: int, n: int)
    requires 0 <= i < m && 0 <= j < n
    ensures 0 <= i * n + j < m * n
  {
    MulAtLeast(m - i, n);
    assert m * n == (m - i) * n + i * n;
  }

  /** Later positions lie in a later row, or further right in the same row. */
  lemma RowMajorOrder(k: int, l: int, n: int)
    requires 0 <= k < l && n > 0
    ensures k / n < l / n || (k / n == l / n && k % n < l % n)
  {
    var qk, ql := k / n, l / n;
    assert k == qk * n + k % n && l == ql * n + l % n;
    if qk > ql {
      MulAtLeast(qk - ql, n);
    } else if qk == ql {
    }
  }

  /** `cross(a, b)`: `[s + t for s in a for t in b]`, row-major. */
  function Cross(a: string, b: string): (r: seq<Cell>)
    ensures |r| == |a| * |b|
    ensures forall x :: x in r <==> |x| == 2 && x[0] in a && x[1] in b
  {
    if |b| == 0 then []
    else
      var r := seq(|a| * |b|, k requires 0 <= k < |a| * |b| =>
        RowMajorBounds(k, |a|, |b|); [a[k / |b|], b[k % |b|]]);
      assert forall x :: |x| == 2 && x[0] in a && x[1] in b ==> x in r by {
        forall x | |x| == 2 && x[0] in a && x[1] in b
          ensures x in r
        {
          var i :| 0 <= i < |a| && a[i] == x[0];
          var j :| 0 <= j < |b| && b[j] == x[1];
          RowMajorIndex(i, j, |b|);
          RowMajorInside(i, j, |a|, |b|);
          assert r[i * |b| + j] == x;
        }
      }
      assert forall x :: x in r ==> |x| == 2 && x[0] in a && x[1] in b by {
        forall x | x in r
          ensures |x| == 2 && x[0] in a && x[1] in b
        {
          var k :| 0 <= k < |r| && r[k] == x;
          RowMajorBounds(k, |a|, |b|);
        }
      }
      r
  }

  lemma CrossSorted(a: string, b: string)
    requires Increasing(a) && Increasing(b)
    ensures SortedNames(Cross(a, b))
  {
    if |b| > 0 {
      var r := Cross(a, b);
      forall k, l | 0 <= k < l < |r|
        ensures LexLess(r[k], r[l])
      {
        var n := |b|;
        RowMajorBounds(k, |a|, n);
        RowMajorBounds(l, |a|, n);
        RowMajorOrder(k, l, n);
        assert r[k] == [a[k / n], b[k % n]] && r[l] == [a[l / n], b[l % n]];
        assert r[k][1..] == [b[k % n]] && r[l][1..] == [b[l % n]];
      }
    }
  }

  lemma SortedDistinct(s: seq<Cell>)
    requires SortedNames(s)
    ensures Distinct(s)
  {
    forall i, j | 0 <= i < j < |s|
      ensures s[i] != s[j]
    {
      LexLessIrreflexive(s[i]);
    }
  }

  /** `boxes` */
  const Boxes: seq<Cell> := Cross(Rows, Cols)
  const BoxSet: set<Cell> := set b | b in Boxes

  /** `row_units`, `column_units`, `square_units`, `unitlist` */
  const RowUnits: seq<Unit> := seq(9, i requires 0 <= i < 9 => Cross([Rows[i]], Cols))
  const ColumnUnits: seq<Unit> := seq(9, j requires 0 <= j < 9 => Cross(Rows, [Cols[j]]))
  const RowBands: seq<string> := ["ABC", "DEF", "GHI"]
  const ColBands: seq<string> := ["123", "456", "789"]
  const SquareUnits: seq<Unit> := seq(9, k requires 0 <= k < 9 => Cross(RowBands[k / 3], ColBands[k % 3]))
  const UnitList: seq<Unit> := RowUnits + ColumnUnits + SquareUnits

  /** The two main diagonals, `zip(rows, cols)` and `zip(rows, cols[::-1])`. */
  const Diagonals: seq<Unit> := [
    seq(9, i requires 0 <= i < 9 => [Rows[i], Cols[i]]),
    seq(9, i requires 0 <= i < 9 => [Rows[i], Cols[8 - i]])
  ]
  /** `diag_unitlist` */
  const DiagUnitList: seq<Unit> := UnitList + Diagonals

  /** `[u for u in unit_list if s in u]` */
  function UnitsContaining(ul: seq<Unit>, s: Cell): (r: seq<Unit>)
    ensures forall u :: u in r <==> u in ul && s in u
  {
    if ul == [] then []
    else (if s in ul[0] then [ul[0]] else []) + UnitsContaining(ul[1..], s)
  }

  /** `dict((s, [u for u in unit_list if s in u]) for s in boxes)` */
  function UnitMap(ul: seq<Unit>): (m: map<Cell, seq<Unit>>)
    ensures m.Keys == BoxSet
  {
    map s | s in BoxSet :: UnitsContaining(ul, s)
  }

  /** `dict((s, set(sum(unit_map[s], [])) - set([s])) for s in boxes)` */
  function PeerMap(um: map<Cell, seq<Unit>>): (m: map<Cell, set<Cell>>)
    ensures m.Keys == um.Keys
  {
    map s | s in um :: (set u, x | u in um[s] && x in u :: x) - {s}
  }

  /** `units`, `peers` */
  const Units: map<Cell, seq<Unit>> := UnitMap(UnitList)
  const Peers: map<Cell, set<Cell>> := PeerMap(Units)
  /** The dictionary form of `diag_units` and `diag_peers`. */
  const DiagUnits: map<Cell, seq<Unit>> := UnitMap(DiagUnitList)
  const DiagPeers: map<Cell, set<Cell>> := PeerMap(DiagUnits)

  /** Two boxes lie in a common unit of `ul`. */
  ghost predicate ShareUnit(ul: seq<Unit>, a: Cell, b: Cell) {
    exists u :: u in ul && a in u && b in u
  }

  /** The peer table built from a unit list holds, for every box, exactly
      the other boxes that share a unit with it. */
  lemma PeerMapExact(ul: seq<Unit>, s: Cell, p: Cell)
    requires s in BoxSet
    ensures p in PeerMap(UnitMap(ul))[s] <==> p != s && ShareUnit(ul, s, p)
  {
    var um := UnitMap(ul);
    var us := UnitsContaining(ul, s);
    assert um[s] == us;
  }

  lemma RowsColsIncreasing()
    ensures Increasing(Rows) && Increasing(Cols)
  {
  }

  /** `boxes` names the 81 boxes once each, row by row (which is also
      Python's string order), and nothing else. */
  lemma BoxesShape()
    ensures |Boxes| == 81
    ensures SortedNames(Boxes) && Distinct(Boxes)
    ensures forall b :: b in BoxSet <==> b in Boxes
    ensures forall b :: b in BoxSet <==> |b| == 2 && b[0] in Rows && b[1] in Cols
  {
    RowsColsIncreasing();
    CrossSorted(Rows, Cols);
    SortedDistinct(Boxes);
  }

  /** The part of `BoxesShape` most proofs need, without the ordering. */
  lemma BoxesIndexed()
    ensures |Boxes| == 81 && Distinct(Boxes)
    ensures forall b :: b in BoxSet <==> b in Boxes
  {
    BoxesShape();
  }

  /** A block of the grid cut out by `cross` is a list of distinct boxes. */
  lemma CrossShape(a: string, b: string)
    requires Increasing(a) && Increasing(b)
    requires forall c :: c in a ==> c in Rows
    requires forall c :: c in b ==> c in Cols
    ensures |Cross(a, b)| == |a| * |b| && Distinct(Cross(a, b))
    ensures forall x :: x in Cross(a, b) ==> x in BoxSet
  {
    BoxesShape();
    CrossSorted(a, b);
    SortedDistinct(Cross(a, b));
  }

  lemma RowUnitShape(i: nat)
    requires i < 9
    ensures |RowUnits[i]| == 9 && Distinct(RowUnits[i])
    ensures forall x :: x in RowUnits[i] ==> x in BoxSet
  {
    RowsColsIncreasing();
    CrossShape([Rows[i]], Cols);
  }

  lemma ColumnUnitShape(j: nat)
    requires j < 9
    ensures |ColumnUnits[j]| == 9 && Distinct(ColumnUnits[j])
    ensures forall x :: x in ColumnUnits[j] ==> x in BoxSet
  {
    RowsColsIncreasing();
    CrossShape(Rows, [Cols[j]]);
  }

  lemma BandShape(rb: nat, cb: nat)
    requires rb < 3 && cb < 3
    ensures |Cross(RowBands[rb], ColBands[cb])| == 9 && Distinct(Cross(RowBands[rb], ColBands[cb]))
    ensures forall x :: x in Cross(RowBands[rb], ColBands[cb]) ==> x in BoxSet
  {
    RowBandShape(rb);
    ColBandShape(cb);
    CrossShape(RowBands[rb], ColBands[cb]);
  }

  /** A band of three rows is increasing letters of `rows`. */
  lemma RowBandShape(rb: nat)
    requires rb < 3
    ensures Increasing(RowBands[rb]) && forall c :: c in RowBands[rb] ==> c in Rows
  {
    if rb == 0 {
      assert RowBands[rb] == "ABC";
    } else if rb == 1 {
      assert RowBands[rb] == "DEF";
    } else {
      assert RowBands[rb] == "GHI";
    }
  }

  /** A band of three columns is increasing digits of `cols`. */
  lemma ColBandShape(cb: nat)
    requires cb < 3
    ensures Increasing(ColBands[cb]) && forall c :: c in ColBands[cb] ==> c in Cols
  {
    if cb == 0 {
      assert ColBands[cb] == "123";
    } else if cb == 1 {
      assert ColBands[cb] == "456";
    } else {
      assert ColBands[cb] == "789";
    }
  }

  lemma SquareUnitShape(k: nat)
    requires k < 9
    ensures |SquareUnits[k]| == 9 && Distinct(SquareUnits[k])
    ensures forall x :: x in SquareUnits[k] ==> x in BoxSet
  {
    BandShape(k / 3, k % 3);
  }

  lemma IsBox(x: Cell)
    requires |x| == 2 && x[0] in Rows && x[1] in Cols
    ensures x in BoxSet
  {
    BoxesShape();
  }

  lemma DiagonalShape(d: nat)
    requires d < 2
    ensures |Diagonals[d]| == 9 && Distinct(Diagonals[d])
    ensures forall x :: x in Diagonals[d] ==> x in BoxSet
  {
    var u := Diagonals[d];
    forall i | 0 <= i < 9
      ensures u[i] in BoxSet
    {
      IsBox(u[i]);
    }
    forall i, j | 0 <= i < j < 9
      ensures u[i] != u[j]
    {
      RowsColsIncreasing();
      assert u[i][0] == Rows[i] && u[j][0] == Rows[j];
    }
  }

  lemma RowMemberShape(u: Unit)
    requires u in RowUnits
    ensures |u| == 9 && Distinct(u)
    ensures forall x :: x in u ==> x in BoxSet
  {
    var i: nat :| i < 9 && RowUnits[i] == u;
    RowUnitShape(i);
  }

  lemma ColumnMemberShape(u: Unit)
    requires u in ColumnUnits
    ensures |u| == 9 && Distinct(u)
    ensures forall x :: x in u ==> x in BoxSet
  {
    var j: nat :| j < 9 && ColumnUnits[j] == u;
    ColumnUnitShape(j);
  }

  lemma SquareMemberShape(u: Unit)
    requires u in SquareUnits
    ensures |u| == 9 && Distinct(u)
    ensures forall x :: x in u ==> x in BoxSet
  {
    var k: nat :| k < 9 && SquareUnits[k] == u;
    SquareUnitShape(k);
  }

  lemma UnitShape(u: Unit)
    requires u in DiagUnitList
    ensures |u| == 9 && Distinct(u)
    ensures forall x :: x in u ==> x in BoxSet
  {
    if u in RowUnits {
      RowMemberShape(u);
    } else if u in ColumnUnits {
      ColumnMemberShape(u);
    } else if u in SquareUnits {
      SquareMemberShape(u);
    } else {
      var d :| 0 <= d < 2 && Diagonals[d] == u;
      DiagonalShape(d);
    }
  }

  /** Every unit, with or without the diagonals, is nine different boxes
      of the grid. */
  lemma UnitsShape()
    ensures |UnitList| == 27 && |DiagUnitList| == 29
    ensures forall u :: u in UnitList ==> u in DiagUnitList
    ensures forall u :: u in DiagUnitList ==> |u| == 9 && Distinct(u)
    ensures forall u, x :: u in DiagUnitList && x in u ==> x in BoxSet
  {
    forall u | u in DiagUnitList
      ensures |u| == 9 && Distinct(u) && forall x :: x in u ==> x in BoxSet
    {
      UnitShape(u);
    }
  }

  /** `peers[s]` holds exactly the other boxes that share a row, column or
      square with `s`, and nothing outside the grid. */
  lemma PeersExact(s: Cell, p: Cell)
    requires s in BoxSet
    ensures p in Peers[s] <==> p != s && ShareUnit(UnitList, s, p)
    ensures p in Peers[s] ==> p in BoxSet
  {
    PeerMapExact(UnitList, s, p);
    UnitsShape();
  }

  /** The same for `diag_peers`, counting the two diagonals as units. */
  lemma DiagPeersExact(s: Cell, p: Cell)
    requires s in BoxSet
    ensures p in DiagPeers[s] <==> p != s && ShareUnit(DiagUnitList, s, p)
    ensures p in DiagPeers[s] ==> p in BoxSet
  {
    PeerMapExact(DiagUnitList, s, p);
    UnitsShape();
  }

  /** Being peers is symmetric, in both tables, and no box is its own peer. */
  lemma PeersSymmetric(s: Cell, p: Cell)
    requires s in BoxSet && p in BoxSet
    ensures s !in Peers[s] && s !in DiagPeers[s]
    ensures p in Peers[s] <==> s in Peers[p]
    ensures p in DiagPeers[s] <==> s in DiagPeers[p]
  {
    PeersExact(s, s);
    DiagPeersExact(s, s);
    PeersExact(s, p);
    PeersExact(p, s);
    DiagPeersExact(s, p);
    DiagPeersExact(p, s);
  }

  /** What the boxes of one row, one column or one square have in common. */
  lemma RowUnitMember(i: nat, x: Cell)
    requires i < 9 && x in RowUnits[i]
    ensures |x| == 2 && x[0] == Rows[i]
  {
    assert RowUnits[i] == Cross([Rows[i]], Cols);
  }

  lemma ColumnUnitMember(j: nat, x: Cell)
    requires j < 9 && x in ColumnUnits[j]
    ensures |x| == 2 && x[1] == Cols[j]
  {
    assert ColumnUnits[j] == Cross(Rows, [Cols[j]]);
  }

  lemma SquareUnitMember(k: nat, x: Cell)
    requires k < 9 && x in SquareUnits[k]
    ensures |x| == 2 && x[0] in RowBands[k / 3]
  {
    assert SquareUnits[k] == Cross(RowBands[k / 3], ColBands[k % 3]);
  }

  /** Two boxes in different rows, different columns and different bands
      of three rows share no unit of `unitlist`. */
  lemma NoCommonUnit(a: Cell, b: Cell)
    requires |a| == 2 && |b| == 2 && a[0] != b[0] && a[1] != b[1]
    requires forall rb :: 0 <= rb < 3 ==> !(a[0] in RowBands[rb] && b[0] in RowBands[rb])
    ensures !ShareUnit(UnitList, a, b)
  {
    forall u | u in UnitList && a in u
      ensures b !in u
    {
      if u in RowUnits {
        RowsApart(a, b, u);
      } else if u in ColumnUnits {
        ColumnsApart(a, b, u);
      } else {
        SquaresApart(a, b, u);
      }
    }
  }

  lemma RowsApart(a: Cell, b: Cell, u: Unit)
    requires |a| == 2 && |b| == 2 && a[0] != b[0]
    requires u in RowUnits && a in u
    ensures b !in u
  {
    var i: nat :| i < 9 && RowUnits[i] == u;
    RowUnitMember(i, a);
    if b in u {
      RowUnitMember(i, b);
    }
  }

  lemma ColumnsApart(a: Cell, b: Cell, u: Unit)
    requires |a| == 2 && |b| == 2 && a[1] != b[1]
    requires u in ColumnUnits && a in u
    ensures b !in u
  {
    var j: nat :| j < 9 && ColumnUnits[j] == u;
    ColumnUnitMember(j, a);
    if b in u {
      ColumnUnitMember(j, b);
    }
  }

  lemma SquaresApart(a: Cell, b: Cell, u: Unit)
    requires |a| == 2 && |b| == 2
    requires forall rb :: 0 <= rb < 3 ==> !(a[0] in RowBands[rb] && b[0] in RowBands[rb])
    requires u in SquareUnits && a in u
    ensures b !in u
  {
    var k: nat :| k < 9 && SquareUnits[k] == u;
    assert 0 <= k / 3 < 3;
    SquareUnitMember(k, a);
    if b in u {
      SquareUnitMember(k, b);
    }
  }

  /** Both unit tables and both peer tables have exactly the 81 boxes as
      keys. */
  lemma TablesKeys()
    ensures Units.Keys == BoxSet && DiagUnits.Keys == BoxSet
    ensures Peers.Keys == BoxSet && DiagPeers.Keys == BoxSet
  {
  }

  /** "A1", "D4" and "E5" lie on the main diagonal. */
  lemma MainDiagonal()
    ensures Diagonals[0] in DiagUnitList
    ensures "A1" in Diagonals[0] && "D4" in Diagonals[0] && "E5" in Diagonals[0]
  {
    var d := Diagonals[0];
    assert d[0] == [Rows[0], Cols[0]] == "A1";
    assert d[3] == [Rows[3], Cols[3]] == "D4";
    assert d[4] == [Rows[4], Cols[4]] == "E5";
    assert DiagUnitList[27] == d;
  }

  /** Boxes sharing a unit of `unitlist` share one of `diag_unitlist`. */
  lemma ShareUnitWider(a: Cell, b: Cell)
    requires ShareUnit(UnitList, a, b)
    ensures ShareUnit(DiagUnitList, a, b)
  {
    var u :| u in UnitList && a in u && b in u;
    assert u in DiagUnitList;
  }

  /** A list without repeats has as many members as entries. */
  lemma {:induction false} DistinctCount<T>(s: seq<T>)
    requires Distinct(s)
    ensures |(set x | x in s)| == |s|
  {
    if s != [] {
      var rest := s[1..];
      DistinctTail(s);
      DistinctCount(rest);
      assert (set x | x in s) == {s[0]} + (set x | x in rest) by {
        assert s == [s[0]] + rest;
      }
    }
  }

  /** The box in row `i` and column `j`, both counted from 0. */
  function Name(i: nat, j: nat): Cell
    requires i < 9 && j < 9
  {
    [Rows[i], Cols[j]]
  }

  /** Different positions name different boxes. */
  lemma NameInjective(i: nat, j: nat, i': nat, j': nat)
    requires i < 9 && j < 9 && i' < 9 && j' < 9
    ensures Name(i, j) == Name(i', j') <==> i == i' && j == j'
  {
    RowsColsIncreasing();
    if Name(i, j) == Name(i', j') {
      assert Rows[i] == Name(i, j)[0] == Rows[i'];
      assert Cols[j] == Name(i, j)[1] == Cols[j'];
    }
  }

  /** Every box has a row and a column. */
  lemma NameOf(s: Cell) returns (i: nat, j: nat)
    requires s in BoxSet
    ensures i < 9 && j < 9 && s == Name(i, j)
  {
    BoxesShape();
    i :| i < 9 && Rows[i] == s[0];
    j :| j < 9 && Cols[j] == s[1];
  }

  /** Band `b` of rows is the slice of three rows starting at `3 * b`. */
  lemma RowBandSlice(b: nat)
    requires b < 3
    ensures RowBands[b] == Rows[3 * b..3 * b + 3]
  {
    var band := Rows[3 * b..3 * b + 3];
    assert band == [Rows[3 * b], Rows[3 * b + 1], Rows[3 * b + 2]];
  }

  /** Band `b` of columns is the slice of three columns starting at `3 * b`. */
  lemma ColBandSlice(b: nat)
    requires b < 3
    ensures ColBands[b] == Cols[3 * b..3 * b + 3]
  {
    var band := Cols[3 * b..3 * b + 3];
    assert band == [Cols[3 * b], Cols[3 * b + 1], Cols[3 * b + 2]];
  }

  /** Row `i` lies in band `b` of three rows exactly when `i / 3 == b`. */
  lemma RowInBand(i: nat, b: nat)
    requires i < 9 && b < 3
    ensures Rows[i] in RowBands[b] <==> i / 3 == b
  {
    RowBandSlice(b);
    RowsColsIncreasing();
    var band := Rows[3 * b..3 * b + 3];
    if i / 3 == b {
      assert band[i - 3 * b] == Rows[i];
    }
    if Rows[i] in band {
      var t :| 0 <= t < 3 && band[t] == Rows[i];
      assert Rows[3 * b + t] == Rows[i];
    }
  }

  /** Column `j` lies in band `b` of three columns exactly when
      `j / 3 == b`. */
  lemma ColInBand(j: nat, b: nat)
    requires j < 9 && b < 3
    ensures Cols[j] in ColBands[b] <==> j / 3 == b
  {
    ColBandSlice(b);
    RowsColsIncreasing();
    var band := Cols[3 * b..3 * b + 3];
    if j / 3 == b {
      assert band[j - 3 * b] == Cols[j];
    }
    if Cols[j] in band {
      var t :| 0 <= t < 3 && band[t] == Cols[j];
      assert Cols[3 * b + t] == Cols[j];
    }
  }

  /** Two boxes share a row, a column or a square exactly when they have
      the same row, the same column, or both the same band of rows and the
      same band of columns. */
  lemma ShareIndices(i: nat, j: nat, i': nat, j': nat)
    requires i < 9 && j < 9 && i' < 9 && j' < 9
    ensures ShareUnit(UnitList, Name(i, j), Name(i', j')) <==>
      i == i' || j == j' || (i / 3 == i' / 3 && j / 3 == j' / 3)
  {
    if i == i' {
      SameRowShares(i, j, j');
    } else if j == j' {
      SameColumnShares(i, i', j);
    } else if i / 3 == i' / 3 && j / 3 == j' / 3 {
      SameSquareShares(i, j, i', j');
    } else {
      ApartShareNothing(i, j, i', j');
    }
  }

  lemma SameRowShares(i: nat, j: nat, j': nat)
    requires i < 9 && j < 9 && j' < 9
    ensures ShareUnit(UnitList, Name(i, j), Name(i, j'))
  {
    assert RowUnits[i] == Cross([Rows[i]], Cols);
    assert UnitList[i] == RowUnits[i];
    assert Name(i, j) in RowUnits[i] && Name(i, j') in RowUnits[i];
  }

  lemma SameColumnShares(i: nat, i': nat, j: nat)
    requires i < 9 && i' < 9 && j < 9
    ensures ShareUnit(UnitList, Name(i, j), Name(i', j))
  {
    assert ColumnUnits[j] == Cross(Rows, [Cols[j]]);
    assert UnitList[9 + j] == ColumnUnits[j];
    assert Name(i, j) in ColumnUnits[j] && Name(i', j) in ColumnUnits[j];
  }

  lemma SameSquareShares(i: nat, j: nat, i': nat, j': nat)
    requires i < 9 && j < 9 && i' < 9 && j' < 9
    requires i / 3 == i' / 3 && j / 3 == j' / 3
    ensures ShareUnit(UnitList, Name(i, j), Name(i', j'))
  {
    var k := 3 * (i / 3) + j / 3;
    assert UnitList[18 + k] == SquareUnits[k];
    SquareIndices(k, i, j);
    SquareIndices(k, i', j');
  }

  lemma ApartShareNothing(i: nat, j: nat, i': nat, j': nat)
    requires i < 9 && j < 9 && i' < 9 && j' < 9
    requires i != i' && j != j' && !(i / 3 == i' / 3 && j / 3 == j' / 3)
    ensures !ShareUnit(UnitList, Name(i, j), Name(i', j'))
  {
    var a, b := Name(i, j), Name(i', j');
    NameInjective(i, j, i', j);
    NameInjective(i, j, i, j');
    forall u | u in UnitList && a in u
      ensures b !in u
    {
      if u in RowUnits {
        RowsApart(a, b, u);
      } else if u in ColumnUnits {
        ColumnsApart(a, b, u);
      } else {
        var k: nat :| k < 9 && SquareUnits[k] == u;
        SquareIndices(k, i, j);
        SquareIndices(k, i', j');
      }
    }
  }

  /** The box in row `i` and column `j` lies in square `k` exactly when
      `k` is the square of its two bands. */
  lemma SquareIndices(k: nat, i: nat, j: nat)
    requires k < 9 && i < 9 && j < 9
    ensures Name(i, j) in SquareUnits[k] <==> i / 3 == k / 3 && j / 3 == k % 3
  {
    assert SquareUnits[k] == Cross(RowBands[k / 3], ColBands[k % 3]);
    RowInBand(i, k / 3);
    ColInBand(j, k % 3);
  }

  /** The `t`-th of the numbers other than `x`, in increasing order. */
  function Skip(x: nat, t: nat): nat {
    if t < x then t else t + 1
  }

  /** The positions of the peers of the box in row `i` and column `j`: the
      other 8 of its row, the other 8 of its column, then the 4 of its
      square that are in neither. */
  function PeerPositions(i: nat, j: nat): (r: seq<(nat, nat)>)
    requires i < 9 && j < 9
    ensures |r| == 20
  {
    seq(8, t requires 0 <= t < 8 => (i, Skip(j, t)))
    + seq(8, t requires 0 <= t < 8 => (Skip(i, t), j))
    + seq(4, t requires 0 <= t < 4 => (3 * (i / 3) + Skip(i % 3, t / 2), 3 * (j / 3) + Skip(j % 3, t % 2)))
  }

  /** Same row, same column, or same square, by position. */
  predicate Related(i: nat, j: nat, i': nat, j': nat) {
    i == i' || j == j' || (i / 3 == i' / 3 && j / 3 == j' / 3)
  }

  /** Every listed position is another box of the grid related to
      `(i, j)`. */
  lemma PositionValid(i: nat, j: nat, a: nat)
    requires i < 9 && j < 9 && a < 20
    ensures PeerPositions(i, j)[a].0 < 9 && PeerPositions(i, j)[a].1 < 9
    ensures PeerPositions(i, j)[a] != (i, j)
    ensures Related(i, j, PeerPositions(i, j)[a].0, PeerPositions(i, j)[a].1)
  {
  }

  /** No position is listed twice. */
  lemma PositionsDistinct(i: nat, j: nat)
    requires i < 9 && j < 9
    ensures Distinct(PeerPositions(i, j))
  {
  }

  /** Every other box related to `(i, j)` is listed. */
  lemma PositionsComplete(i: nat, j: nat, i': nat, j': nat)
    requires i < 9 && j < 9 && i' < 9 && j' < 9
    requires (i', j') != (i, j) && Related(i, j, i', j')
    ensures (i', j') in PeerPositions(i, j)
  {
    var pos := PeerPositions(i, j);
    if i' == i {
      var t := if j' < j then j' else j' - 1;
      assert pos[t] == (i', j');
    } else if j' == j {
      var t := if i' < i then i' else i' - 1;
      assert pos[8 + t] == (i', j');
    } else {
      SquareListed(i, j, i', j');
    }
  }

  /** The rank of `y` among the numbers other than `x`, undone by `Skip`. */
  lemma SkipRank(x: nat, y: nat)
    requires x != y
    ensures Skip(x, if y < x then y else y - 1) == y
  {
  }

  /** Position `y` is `3 * (x / 3)` plus its place within the band of `x`. */
  lemma WithinBand(x: nat, y: nat)
    requires x / 3 == y / 3
    ensures 3 * (x / 3) + y % 3 == y
  {
  }

  lemma SquareListed(i: nat, j: nat, i': nat, j': nat)
    requires i < 9 && j < 9 && i' < 9 && j' < 9
    requires i' != i && j' != j && i / 3 == i' / 3 && j / 3 == j' / 3
    ensures (i', j') in PeerPositions(i, j)
  {
    var tr := if i' % 3 < i % 3 then i' % 3 else i' % 3 - 1;
    var tc := if j' % 3 < j % 3 then j' % 3 else j' % 3 - 1;
    SkipRank(i % 3, i' % 3);
    SkipRank(j % 3, j' % 3);
    WithinBand(i, i');
    WithinBand(j, j');
    var t := 2 * tr + tc;
    assert t / 2 == tr && t % 2 == tc;
    assert PeerPositions(i, j)[16 + t] == (i', j');
  }

  /** The names of the boxes at `PeerPositions(i, j)`. */
  function PeerNames(i: nat, j: nat): (r: seq<Cell>)
    requires i < 9 && j < 9
    ensures |r| == 20
  {
    var pos := PeerPositions(i, j);
    seq(20, a requires 0 <= a < 20 => PositionValid(i, j, a); Name(pos[a].0, pos[a].1))
  }

  /** `peers[s]` holds 20 boxes: 8 of the row, 8 of the column and 4 more
      of the square. */
  lemma PeersCount(s: Cell)
    requires s in BoxSet
    ensures s in Peers && |Peers[s]| == 20
  {
    var i, j := NameOf(s);
    PeersAreNames(i, j, s);
    NamesDistinct(i, j);
    DistinctCount(PeerNames(i, j));
  }

  lemma PeersAreNames(i: nat, j: nat, s: Cell)
    requires i < 9 && j < 9 && s == Name(i, j) && s in BoxSet
    ensures Peers[s] == set p | p in PeerNames(i, j)
  {
    PeersInNames(i, j, s);
    NamesInPeers(i, j, s);
  }

  lemma PeersInNames(i: nat, j: nat, s: Cell)
    requires i < 9 && j < 9 && s == Name(i, j) && s in BoxSet
    ensures forall p :: p in Peers[s] ==> p in PeerNames(i, j)
  {
    forall p | p in Peers[s]
      ensures p in PeerNames(i, j)
    {
      PeerListed(i, j, s, p);
    }
  }

  lemma NamesInPeers(i: nat, j: nat, s: Cell)
    requires i < 9 && j < 9 && s == Name(i, j) && s in BoxSet
    ensures forall p :: p in PeerNames(i, j) ==> s in Peers && p in Peers[s]
  {
    forall a: nat | a < 20
      ensures PeerNames(i, j)[a] in Peers[s]
    {
      NameIsPeer(i, j, s, a);
    }
  }

  lemma NamesDistinct(i: nat, j: nat)
    requires i < 9 && j < 9
    ensures Distinct(PeerNames(i, j))
  {
    var pos, names := PeerPositions(i, j), PeerNames(i, j);
    PositionsDistinct(i, j);
    forall a, b | 0 <= a < b < 20
      ensures names[a] != names[b]
    {
      PositionValid(i, j, a);
      PositionValid(i, j, b);
      NameInjective(pos[a].0, pos[a].1, pos[b].0, pos[b].1);
    }
  }

  /** Every peer of `s` is named in the list. */
  lemma PeerListed(i: nat, j: nat, s: Cell, p: Cell)
    requires i < 9 && j < 9 && s == Name(i, j) && s in BoxSet && p in Peers[s]
    ensures p in PeerNames(i, j)
  {
    var i', j' := PeerAt(i, j, s, p);
    PositionsComplete(i, j, i', j');
    var a :| 0 <= a < 20 && PeerPositions(i, j)[a] == (i', j');
    assert PeerNames(i, j)[a] == p;
  }

  /** A peer of `s` sits at another position related to that of `s`. */
  lemma PeerAt(i: nat, j: nat, s: Cell, p: Cell) returns (i': nat, j': nat)
    requires i < 9 && j < 9 && s == Name(i, j) && s in BoxSet && p in Peers[s]
    ensures i' < 9 && j' < 9 && p == Name(i', j')
    ensures (i', j') != (i, j) && Related(i, j, i', j')
  {
    PeersExact(s, p);
    i', j' := NameOf(p);
    NameInjective(i, j, i', j');
    ShareIndices(i, j, i', j');
  }

  /** Every name in the list is a peer of `s`. */
  lemma NameIsPeer(i: nat, j: nat, s: Cell, a: nat)
    requires i < 9 && j < 9 && s == Name(i, j) && s in BoxSet && a < 20
    ensures PeerNames(i, j)[a] in Peers[s]
  {
    var pos := PeerPositions(i, j);
    PositionValid(i, j, a);
    NameInjective(i, j, pos[a].0, pos[a].1);
    ShareIndices(i, j, pos[a].0, pos[a].1);
    PeersExact(s, PeerNames(i, j)[a]);
  }
}
