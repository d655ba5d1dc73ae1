/** `grid_values`: from an 81-character puzzle string to a board. */
module Codec {
  import opened Wrappers
  import opened Topology
  import opened Boards

  /** The candidates of a box whose puzzle character is `ch`: all nine
      digits for the placeholder '.', otherwise the character itself. */
  function CellValue(ch: char): Candidates {
    if ch == '.' then Digits else [ch]
  }

  /** `dict(zip(keys, [CellValue(c) for c in chars]))` for distinct keys. */
  function {:induction false} Zip(keys: seq<Cell>, chars: string): (r: Board)
    requires |keys| == |chars| && Distinct(keys)
    ensures forall k :: k in r <==> k in keys
    ensures forall i :: 0 <= i < |keys| ==> r[keys[i]] == CellValue(chars[i])
  {
    if keys == [] then map[]
    else
      DistinctTail(keys);
      var rest := Zip(keys[1..], chars[1..]);
      var r := rest[keys[0] := CellValue(chars[0])];
      assert forall i :: 1 <= i < |keys| ==> keys[i] == keys[1..][i - 1] && chars[i] == chars[1..][i - 1];
      r
  }

  /** `grid_values(grid)`. The source asserts the length; a failed
      assertion is `None` here. */
  function GridValues(grid: string): (r: Option<Board>)
    ensures r.Some? <==> |grid| == 81
    ensures r.Some? ==> IsBoard(r.value) && NoEmpty(r.value)
    ensures r.Some? ==> forall k :: 0 <= k < |grid| && k < |Boxes| ==> r.value[Boxes[k]] == CellValue(grid[k])
  {
    if |grid| != 81 then None
    else
      BoxesIndexed();
      Some(Zip(Boxes, grid))
  }

  /** The candidates of `keys`, written one after the other. */
  function Join(v: Board, keys: seq<Cell>): string
    requires forall k :: k in keys ==> k in v
  {
    if keys == [] then [] else v[keys[0]] + Join(v, keys[1..])
  }

  /** Reading the characters of a puzzle with no placeholder into distinct
      boxes and writing the boxes back out gives the characters again. */
  lemma {:induction false} ZipJoin(keys: seq<Cell>, chars: string)
    requires |keys| == |chars| && Distinct(keys) && '.' !in chars
    ensures Join(Zip(keys, chars), keys) == chars
  {
    if keys != [] {
      var v := Zip(keys, chars);
      var rest := Zip(keys[1..], chars[1..]);
      assert v == rest[keys[0] := CellValue(chars[0])];
      ZipJoin(keys[1..], chars[1..]);
      forall k | k in keys[1..]
        ensures k in v && k in rest && v[k] == rest[k]
      {
        assert k != keys[0];
      }
      JoinUnchanged(v, rest, keys[1..]);
      assert chars[0] in chars;
      assert v[keys[0]] == [chars[0]];
      assert Join(v, keys) == v[keys[0]] + Join(v, keys[1..]);
      assert chars == [chars[0]] + chars[1..];
    }
  }

  lemma {:induction false} JoinUnchanged(a: Board, b: Board, keys: seq<Cell>)
    requires forall k :: k in keys ==> k in a && k in b && a[k] == b[k]
    ensures Join(a, keys) == Join(b, keys)
  {
    if keys != [] {
      JoinUnchanged(a, b, keys[1..]);
    }
  }

  /** A puzzle with no placeholder reads back as itself. */
  lemma GridValuesRoundTrip(grid: string)
    requires |grid| == 81 && '.' !in grid
    ensures GridValues(grid).Some?
    ensures Join(GridValues(grid).value, Boxes) == grid
  {
    BoxesIndexed();
    ZipJoin(Boxes, grid);
  }
}
