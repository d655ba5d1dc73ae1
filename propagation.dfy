/** The two constraint-propagation rules shared by both solvers,
    `eliminate` and `only_choice`, and the choice of the box `search`
    branches on. */
module Propagation {
  import opened Strings
  import opened Topology
  import opened Boards

  /** `[box for box in keys if len(values[box]) == 1]` */
  function SolvedBoxes(v: Board, keys: seq<Cell>): (r: seq<Cell>)
    requires forall k :: k in keys ==> k in v
    ensures forall b :: b in r <==> b in keys && |v[b]| == 1
  {
    if keys == [] then []
    else (if |v[keys[0]]| == 1 then [keys[0]] else []) + SolvedBoxes(v, keys[1..])
  }

  /** Every candidate `c` that `w` lost from a box `p` was the value of a box
      solved in `v` that lists `p` among its peers. */
  predicate Justified(v: Board, w: Board, peers: map<Cell, set<Cell>>) {
    forall p, c :: p in v && p in w && c in v[p] && c !in w[p] ==> SolvedPeerHolds(v, peers, p, c)
  }

  /** Some box solved in `v` with the value `c` lists `p` among its peers. */
  predicate SolvedPeerHolds(v: Board, peers: map<Cell, set<Cell>>, p: Cell, c: char) {
    exists b :: b in v && b in peers && v[b] == [c] && p in peers[b]
  }

  /** The box `b`, solved in `v` and still holding that value in `w`, has had
      its value removed from every one of its peers. */
  predicate ClearedAt(v: Board, w: Board, peers: map<Cell, set<Cell>>, b: Cell)
    requires b in v && b in w && b in peers && |v[b]| == 1
  {
    w[b] == v[b] ==> forall p :: p in peers[b] && p in w ==> v[b][0] !in w[p]
  }

  /** Every box solved in `v` whose value survived in `w` has been cleared
      from its peers. */
  predicate Cleared(v: Board, w: Board, peers: map<Cell, set<Cell>>) {
    forall b :: b in v && b in w && b in peers && |v[b]| == 1 ==> ClearedAt(v, w, peers, b)
  }

  /** Between three successive narrowings, a candidate list that is the same
      at both ends is the same in the middle. */
  lemma SandwichSame(a: string, b: string, c: string)
    requires Subseq(a, b) && Subseq(b, c) && a == c
    ensures b == c
  {
    SubseqLength(a, b);
    SubseqLength(b, c);
    SubseqSameLength(b, c);
  }

  /** Narrowing further keeps a box cleared. */
  lemma ClearedAtShrink(v: Board, w: Board, w': Board, peers: map<Cell, set<Cell>>, b: Cell)
    requires IsBoard(v) && Refines(w, v) && Refines(w', w)
    requires b in v && b in peers && |v[b]| == 1 && ClearedAt(v, w, peers, b)
    ensures ClearedAt(v, w', peers, b)
  {
    if w'[b] == v[b] {
      SandwichSame(w'[b], w[b], v[b]);
      forall p | p in peers[b] && p in w'
        ensures v[b][0] !in w'[p]
      {
        if v[b][0] in w'[p] {
          SubseqMember(w'[p], w[p], v[b][0]);
        }
      }
    }
  }

  /** One step of `eliminate`: `values[peer] = values[peer].replace(digit, '')`,
      where `digit` is what the solved box `box` holds now, keeps every lost
      candidate justified. */
  lemma EliminateStep(v: Board, w: Board, peers: map<Cell, set<Cell>>, box: Cell, digit: string, p: Cell)
    requires Refines(w, v) && Justified(v, w, peers)
    requires box in v && box in peers && |v[box]| == 1 && (digit == [] || digit == v[box])
    requires p in peers[box] && p in w
    ensures Justified(v, w[p := Delete(w[p], digit)], peers)
  {
    var w' := w[p := Delete(w[p], digit)];
    forall q, c | q in v && q in w' && c in v[q] && c !in w'[q]
      ensures SolvedPeerHolds(v, peers, q, c)
    {
      if q == p && c in w[p] {
        assert digit != [] && digit[0] == c;
        assert v[box] == [c];
      }
    }
  }

  /** A candidate not in a list is not in any narrowing of it. */
  lemma AbsentStaysAbsent(a: string, b: string, c: char)
    requires Subseq(a, b) && c !in b
    ensures c !in a
  {
    if c in a {
      SubseqMember(a, b, c);
    }
  }

  /** What holds while `digit` is being removed from the peers of `box`,
      `todo` being the peers not yet visited. */
  predicate ClearingPeers(values: Board, r0: Board, r: Board, peers: map<Cell, set<Cell>>,
                          box: Cell, digit: string, todo: set<Cell>)
    requires box in peers && box in r
  {
    && IsBoard(r) && Refines(r, values) && Refines(r, r0) && Justified(values, r, peers)
    && todo <= peers[box]
    && Subseq(r[box], digit)
    && (digit != [] ==> forall p :: p in peers[box] && p !in todo && p in r ==> digit[0] !in r[p])
    && (forall q :: q in r0 && q in r && (q !in peers[box] || q in todo) ==> r[q] == r0[q])
  }

  /** Visiting one more peer keeps `ClearingPeers`. */
  lemma ClearPeerStep(values: Board, r0: Board, r: Board, peers: map<Cell, set<Cell>>,
                      box: Cell, digit: string, todo: set<Cell>, p: Cell)
    requires IsBoard(values) && PeerTable(peers)
    requires box in values && |values[box]| == 1 && (digit == [] || digit == values[box])
    requires box in r && ClearingPeers(values, r0, r, peers, box, digit, todo) && p in todo
    ensures p in r && box in r[p := Delete(r[p], digit)]
    ensures ClearingPeers(values, r0, r[p := Delete(r[p], digit)], peers, box, digit, todo - {p})
  {
    var x := Delete(r[p], digit);
    EliminateStep(values, r, peers, box, digit, p);
    UpdateRefines(values, r, p, x);
    RefinesTrans(r[p := x], r, r0);
    if p == box {
      SubseqTrans(x, r[box], digit);
    }
    ClearPeerVisited(r, peers, box, digit, todo, p);
    ClearPeerUntouched(r0, r, peers, box, digit, todo, p);
  }

  /** The peer just visited no longer holds the digit, and the ones visited
      before still do not. */
  lemma ClearPeerVisited(r: Board, peers: map<Cell, set<Cell>>, box: Cell, digit: string, todo: set<Cell>, p: Cell)
    requires box in peers && |digit| <= 1 && p in todo && p in r && todo <= peers[box]
    requires digit != [] ==> forall q :: q in peers[box] && q !in todo && q in r ==> digit[0] !in r[q]
    ensures digit != [] ==> forall q :: q in peers[box] && q !in todo - {p} && q in r[p := Delete(r[p], digit)] ==>
      digit[0] !in r[p := Delete(r[p], digit)][q]
  {
  }

  /** Boxes outside the peers of `box`, and peers not yet visited, keep what
      they held at the start. */
  lemma ClearPeerUntouched(r0: Board, r: Board, peers: map<Cell, set<Cell>>, box: Cell, digit: string, todo: set<Cell>, p: Cell)
    requires box in peers && |digit| <= 1 && p in todo && p in r && todo <= peers[box]
    requires forall q :: q in r0 && q in r && (q !in peers[box] || q in todo) ==> r[q] == r0[q]
    ensures forall q :: q in r0 && q in r[p := Delete(r[p], digit)] && (q !in peers[box] || q in todo - {p}) ==>
      r[p := Delete(r[p], digit)][q] == r0[q]
  {
  }

  /** The inner loop of `eliminate`: `values[peer] =
      values[peer].replace(digit, '')` for every peer of `box`, where `digit`
      is what `box` holds when its turn comes. */
  method ClearPeers(values: Board, r0: Board, peers: map<Cell, set<Cell>>, box: Cell, digit: string)
    returns (r: Board)
    requires IsBoard(values) && PeerTable(peers) && Refines(r0, values) && Justified(values, r0, peers)
    requires box in values && |values[box]| == 1 && (digit == [] || digit == values[box])
    requires Subseq(r0[box], digit)
    ensures IsBoard(r) && Refines(r, values) && Refines(r, r0) && Justified(values, r, peers)
    ensures Subseq(r[box], digit)
    ensures digit != [] ==> forall p :: p in peers[box] ==> digit[0] !in r[p]
    ensures forall q :: q in r0 && q !in peers[box] ==> r[q] == r0[q]
  {
    r := r0;
    RefinesRefl(r0);
    var todo := peers[box];
    while todo != {}
      invariant box in r && ClearingPeers(values, r0, r, peers, box, digit, todo)
      decreases todo
    {
      var p :| p in todo;
      ClearPeerStep(values, r0, r, peers, box, digit, todo, p);
      r := r[p := Delete(r[p], digit)];
      todo := todo - {p};
    }
  }

  /** What a solved box holds later is its value or nothing. */
  lemma SolvedNarrowing(digit: string, value: string)
    requires |value| == 1 && Subseq(digit, value)
    ensures digit == [] || digit == value
    ensures Subseq(digit, digit)
  {
    assert value == [value[0]];
    SubseqOfSingleton(digit, value[0]);
    SubseqRefl(digit);
  }

  /** After the `i`-th solved box has cleared its peers, the first `i + 1`
      solved boxes are cleared. */
  lemma ClearedThrough(values: Board, start: Board, r: Board, peers: map<Cell, set<Cell>>,
                       solved: seq<Cell>, i: nat)
    requires IsBoard(values) && PeerTable(peers) && IsBoard(r)
    requires Refines(start, values) && Refines(r, start)
    requires forall b :: b in solved ==> b in values && |values[b]| == 1
    requires i < |solved| && forall k :: 0 <= k < i ==> ClearedAt(values, start, peers, solved[k])
    requires Subseq(start[solved[i]], values[solved[i]]) && Subseq(r[solved[i]], start[solved[i]])
    requires start[solved[i]] != [] ==>
      forall p :: p in peers[solved[i]] ==> start[solved[i]][0] !in r[p]
    ensures forall k :: 0 <= k <= i ==> ClearedAt(values, r, peers, solved[k])
  {
    forall k | 0 <= k < i
      ensures ClearedAt(values, r, peers, solved[k])
    {
      ClearedAtShrink(values, start, r, peers, solved[k]);
    }
    ClearedNow(values, start[solved[i]], r, peers, solved[i]);
  }

  /** A solved box that removed what it held, `digit`, from all its peers is
      cleared. */
  lemma ClearedNow(values: Board, digit: string, r: Board, peers: map<Cell, set<Cell>>, box: Cell)
    requires box in values && box in r && box in peers && |values[box]| == 1
    requires Subseq(digit, values[box]) && Subseq(r[box], digit)
    requires digit != [] ==> forall p :: p in peers[box] && p in r ==> digit[0] !in r[p]
    ensures ClearedAt(values, r, peers, box)
  {
    if r[box] == values[box] {
      SandwichSame(r[box], digit, values[box]);
    }
  }

  /** Clearing every solved box of the starting board, one after the other,
      clears the board. */
  lemma ClearedAll(values: Board, r: Board, peers: map<Cell, set<Cell>>, solved: seq<Cell>)
    requires IsBoard(values) && IsBoard(r) && PeerTable(peers)
    requires forall b :: b in solved <==> b in Boxes && |values[b]| == 1
    requires forall k :: 0 <= k < |solved| ==> ClearedAt(values, r, peers, solved[k])
    ensures Cleared(values, r, peers)
  {
    BoxesIndexed();
    forall b | b in values && b in r && b in peers && |values[b]| == 1
      ensures ClearedAt(values, r, peers, b)
    {
      var k :| 0 <= k < |solved| && solved[k] == b;
    }
  }

  /** `eliminate(values)`, run with the peer table `peers`: the boxes solved
      at the start are visited in board order, and each removes what it holds
      at its turn from every one of its peers. */
  method Eliminate(values: Board, peers: map<Cell, set<Cell>>) returns (r: Board)
    requires IsBoard(values) && PeerTable(peers)
    ensures IsBoard(r) && Refines(r, values)
    ensures Justified(values, r, peers)
    ensures Cleared(values, r, peers)
  {
    BoxesIndexed();
    var solved := SolvedBoxes(values, Boxes);
    r := values;
    RefinesRefl(values);
    for i := 0 to |solved|
      invariant IsBoard(r) && Refines(r, values) && Justified(values, r, peers)
      invariant forall k :: 0 <= k < i ==> ClearedAt(values, r, peers, solved[k])
    {
      var box := solved[i];
      var digit := r[box];
      SolvedNarrowing(digit, values[box]);
      var start := r;
      r := ClearPeers(values, r, peers, box, digit);
      ClearedThrough(values, start, r, peers, solved, i);
    }
    ClearedAll(values, r, peers, solved);
  }

  /** What `eliminate` removes with a peer table that only lists other boxes
      of a common unit is no candidate of any solution: the rule loses no
      solution. */
  lemma JustifiedKeepsSolutions(v: Board, w: Board, peers: map<Cell, set<Cell>>, units: seq<Unit>)
    requires Refines(w, v) && Justified(v, w, peers)
    requires PeersWithin(peers, units)
    ensures KeepsSolutions(v, w, units)
  {
    forall sol | IsSolution(sol, units) && Agrees(sol, v)
      ensures Agrees(sol, w)
    {
      forall p | p in w
        ensures p in sol && sol[p] in w[p]
      {
        JustifiedKeepsAt(v, w, peers, units, sol, p);
      }
    }
  }

  lemma JustifiedKeepsAt(v: Board, w: Board, peers: map<Cell, set<Cell>>, units: seq<Unit>, sol: Solution, p: Cell)
    requires Refines(w, v) && Justified(v, w, peers)
    requires PeersWithin(peers, units)
    requires IsSolution(sol, units) && Agrees(sol, v) && p in w
    ensures p in sol && sol[p] in w[p]
  {
  }

  /** `[box for box in unit if digit in values[box]]` */
  function Holders(v: Board, u: Unit, d: char): (r: seq<Cell>)
    requires forall b :: b in u ==> b in v
    ensures forall b :: b in r <==> b in u && d in v[b]
  {
    if u == [] then []
    else (if d in v[u[0]] then [u[0]] else []) + Holders(v, u[1..], d)
  }

  /** In `v`, `b` is the box of unit `u` that holds `d`, alone. */
  predicate OnlyPlace(v: Board, u: Unit, b: Cell, d: char)
    requires b in v
  {
    b in u && v[b] == [d] && forall x :: x in u && x != b && x in v ==> d !in v[x]
  }

  /** `b` was set by `only_choice`: it holds a single digit found nowhere
      else in one of the units. */
  predicate Chosen(v: Board, units: seq<Unit>, b: Cell)
    requires b in v
  {
    exists u, d :: u in units && d in Digits && OnlyPlace(v, u, b, d)
  }

  /** What holds at every step of `only_choice`. */
  ghost predicate OnlyChoiceInvariant(values: Board, r: Board, units: seq<Unit>) {
    && IsBoard(r) && Refines(r, values) && KeepsSolutions(values, r, units)
    && forall b :: b in r && b in values && r[b] != values[b] ==> Chosen(r, units, b)
  }

  /** One assignment `values[dplaces[0]] = digit` keeps the invariant. */
  lemma OnlyChoiceStep(values: Board, r: Board, units: seq<Unit>, u: Unit, d: char)
    requires IsBoard(values) && UnitTable(units) && OnlyChoiceInvariant(values, r, units)
    requires u in units && d in Digits
    requires |Holders(r, u, d)| == 1
    ensures Holders(r, u, d)[0] in r
    ensures OnlyChoiceInvariant(values, r[Holders(r, u, d)[0] := [d]], units)
  {
    var places := Holders(r, u, d);
    var h := places[0];
    assert h in places;
    var r' := r[h := [d]];
    SingletonSubseq(d, r[h]);
    UpdateRefines(values, r, h, [d]);
    RefinesTrans(r', r, values);
    assert IsBoard(r');
    forall sol | IsSolution(sol, units) && Agrees(sol, values)
      ensures Agrees(sol, r')
    {
      OnlyChoiceKeeps(r, units, u, d, sol);
    }
    forall b | b in r' && b in values && r'[b] != values[b]
      ensures Chosen(r', units, b)
    {
      ChosenAfterStep(values, r, units, u, d, b);
    }
  }

  /** After the assignment, every box `only_choice` has changed is still
      the only place of its digit in some unit. */
  lemma ChosenAfterStep(values: Board, r: Board, units: seq<Unit>, u: Unit, d: char, b: Cell)
    requires IsBoard(values) && UnitTable(units) && OnlyChoiceInvariant(values, r, units)
    requires u in units && d in Digits
    requires |Holders(r, u, d)| == 1
    requires Holders(r, u, d)[0] in r
    requires b in r && b in values && r[Holders(r, u, d)[0] := [d]][b] != values[b]
    ensures Chosen(r[Holders(r, u, d)[0] := [d]], units, b)
  {
    var h := Holders(r, u, d)[0];
    var r' := r[h := [d]];
    if b == h {
      forall x | x in u && x != h && x in r'
        ensures d !in r'[x]
      {
        if d in r[x] {
          UniqueHolder(r, u, d, x);
        }
      }
      assert OnlyPlace(r', u, h, d);
    } else {
      assert r'[b] == r[b];
      var u', d' :| u' in units && d' in Digits && OnlyPlace(r, u', b, d');
      forall x | x in u' && x != b && x in r'
        ensures d' !in r'[x]
      {
        if x == h {
          assert h in Holders(r, u, d);
        }
      }
      assert OnlyPlace(r', u', b, d');
    }
  }

  /** A box of `u` holding `d` is the one holder when there is just one. */
  lemma UniqueHolder(r: Board, u: Unit, d: char, b: Cell)
    requires forall x :: x in u ==> x in r
    requires |Holders(r, u, d)| == 1 && b in u && d in r[b]
    ensures b == Holders(r, u, d)[0]
  {
    var places := Holders(r, u, d);
    assert b in places;
  }

  /** A solution that agrees with `r` puts `d` in the only box of `u` that
      can hold it. */
  lemma OnlyChoiceKeeps(r: Board, units: seq<Unit>, u: Unit, d: char, sol: Solution)
    requires IsBoard(r) && UnitTable(units) && u in units && d in Digits
    requires |Holders(r, u, d)| == 1
    requires IsSolution(sol, units) && Agrees(sol, r)
    ensures Holders(r, u, d)[0] in r
    ensures Agrees(sol, r[Holders(r, u, d)[0] := [d]])
  {
    var b :| b in u && b in sol && sol[b] == d;
    UniqueHolder(r, u, d, b);
    AgreesUpdate(sol, r, b, [d]);
  }

  /** `only_choice(values)` over the unit list `units`: a digit that only one
      box of a unit can hold is placed in that box. */
  method OnlyChoice(values: Board, units: seq<Unit>) returns (r: Board)
    requires IsBoard(values) && UnitTable(units)
    ensures IsBoard(r) && Refines(r, values)
    ensures KeepsSolutions(values, r, units)
    ensures forall b :: b in r && r[b] != values[b] ==> Chosen(r, units, b)
  {
    r := values;
    RefinesRefl(values);
    for i := 0 to |units|
      invariant OnlyChoiceInvariant(values, r, units)
    {
      var unit := units[i];
      for k := 0 to |Digits|
        invariant OnlyChoiceInvariant(values, r, units)
      {
        var digit := Digits[k];
        var dplaces := Holders(r, unit, digit);
        if |dplaces| == 1 {
          OnlyChoiceStep(values, r, units, unit, digit);
          r := r[dplaces[0] := [digit]];
        }
      }
    }
  }

  /** `(len(values[a]), a) < (len(values[b]), b)` in Python's tuple order. */
  predicate Fewer(v: Board, a: Cell, b: Cell)
    requires a in v && b in v
  {
    |v[a]| < |v[b]| || (|v[a]| == |v[b]| && LexLess(a, b))
  }

  lemma FewerTotal(v: Board, a: Cell, b: Cell)
    requires a in v && b in v && a != b
    ensures Fewer(v, a, b) || Fewer(v, b, a)
  {
    LexLessTotal(a, b);
  }

  lemma FewerTransitive(v: Board, a: Cell, b: Cell, c: Cell)
    requires a in v && b in v && c in v && Fewer(v, a, b) && Fewer(v, b, c)
    ensures Fewer(v, a, c)
  {
    if |v[a]| == |v[b]| == |v[c]| {
      LexLessTransitive(a, b, c);
    }
  }

  /** No box comes before itself, so the box chosen is unique. */
  lemma FewerIrreflexive(v: Board, a: Cell)
    requires a in v
    ensures !Fewer(v, a, a)
  {
    LexLessIrreflexive(a);
  }

  /** `n, s = min((len(values[s]), s) for s in keys if len(values[s]) > 1)`:
      among the boxes with more than one candidate, the one with fewest
      candidates, ties going to the smallest name. */
  function Fewest(v: Board, keys: seq<Cell>): (s: Cell)
    requires forall k :: k in keys ==> k in v
    requires exists k :: k in keys && |v[k]| > 1
    ensures s in keys && |v[s]| > 1
    ensures forall k :: k in keys && |v[k]| > 1 && k != s ==> Fewer(v, s, k)
    decreases |keys|
  {
    var k := keys[0];
    if !(exists j :: j in keys[1..] && |v[j]| > 1) then
      assert forall j :: j in keys ==> j == k || j in keys[1..];
      k
    else
      var t := Fewest(v, keys[1..]);
      assert forall j :: j in keys ==> j == k || j in keys[1..];
      if |v[k]| <= 1 || Fewer(v, t, k) then t
      else
        FewestHead(v, keys[1..], k, t);
        k
  }

  /** The head wins when the best of the rest does not come before it. */
  lemma FewestHead(v: Board, rest: seq<Cell>, k: Cell, t: Cell)
    requires k in v && t in v && t in rest && |v[k]| > 1 && !Fewer(v, t, k)
    requires forall j :: j in rest ==> j in v
    requires forall j :: j in rest && |v[j]| > 1 && j != t ==> Fewer(v, t, j)
    ensures forall j :: j in rest && |v[j]| > 1 && j != k ==> Fewer(v, k, j)
  {
    forall j | j in rest && |v[j]| > 1 && j != k
      ensures Fewer(v, k, j)
    {
      if t != k {
        FewerTotal(v, t, k);
        if j != t {
          FewerTransitive(v, k, t, j);
        }
      }
    }
  }
}
