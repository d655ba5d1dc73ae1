/** The naked-twins rule, in the two forms the repository has: the solver
    under p-sudoku/ collects every pair first and then prunes, the
    top-level one prunes each pair's unit as soon as the pair is found. */
module Twins {
  import opened Strings
  import opened Topology
  import opened Boards

  /** `[box for box in unit if len(values[box]) == 2]` */
  function PairBoxes(v: Board, u: Unit): (r: seq<Cell>)
    requires forall b :: b in u ==> b in v
    ensures forall b :: b in r <==> b in u && |v[b]| == 2
    ensures Distinct(u) ==> Distinct(r)
  {
    if u == [] then []
    else
      var rest := PairBoxes(v, u[1..]);
      assert Distinct(u) ==> u[0] !in u[1..] && Distinct(u[1..]) by {
        if Distinct(u) {
          assert forall i, j :: 0 <= i < j < |u[1..]| ==> u[1..][i] == u[i + 1] && u[1..][j] == u[j + 1];
        }
      }
      (if |v[u[0]]| == 2 then [u[0]] else []) + rest
  }

  /** Two different boxes of `u` hold the same two candidates `tv`: naked
      twins. */
  predicate TwinsIn(v: Board, u: Unit, tv: string)
    requires forall b :: b in u ==> b in v
  {
    |tv| == 2 && exists a, b :: a in u && b in u && a != b && v[a] == tv && v[b] == tv
  }

  /** Two positions of `place` hold `tv`: what the `seen` set detects. */
  predicate RepeatedIn(v: Board, place: seq<Cell>, tv: string)
    requires forall b :: b in place ==> b in v
  {
    exists m, m' :: 0 <= m < m' < |place| && v[place[m]] == tv && v[place[m']] == tv
  }

  /** A value repeated in the first `k + 1` positions is repeated in the
      first `k`, or sits at position `k` and somewhere before it. */
  lemma RepeatedExtend(v: Board, place: seq<Cell>, k: nat, tv: string)
    requires forall b :: b in place ==> b in v
    requires k < |place|
    ensures RepeatedIn(v, place[..k + 1], tv) <==>
      RepeatedIn(v, place[..k], tv) || (v[place[k]] == tv && exists m :: 0 <= m < k && v[place[m]] == tv)
  {
    var p, q := place[..k + 1], place[..k];
    if RepeatedIn(v, p, tv) {
      var m, m' :| 0 <= m < m' < |p| && v[p[m]] == tv && v[p[m']] == tv;
      if m' < k {
        assert q[m] == p[m] && q[m'] == p[m'];
      } else {
        assert v[place[m]] == tv;
      }
    }
    if RepeatedIn(v, q, tv) {
      var m, m' :| 0 <= m < m' < |q| && v[q[m]] == tv && v[q[m']] == tv;
      assert p[m] == q[m] && p[m'] == q[m'];
    }
    if v[place[k]] == tv && exists m :: 0 <= m < k && v[place[m]] == tv {
      var m :| 0 <= m < k && v[place[m]] == tv;
      assert p[m] == place[m] && p[k] == place[k];
    }
  }

  /** Over a unit without repeated boxes, a value repeated among its
      two-candidate boxes is exactly a pair of naked twins. */
  lemma RepeatedIsTwins(v: Board, u: Unit, tv: string)
    requires forall b :: b in u ==> b in v
    ensures TwinsIn(v, u, tv) ==> RepeatedIn(v, PairBoxes(v, u), tv)
    ensures Distinct(u) && RepeatedIn(v, PairBoxes(v, u), tv) ==> TwinsIn(v, u, tv)
  {
    if TwinsIn(v, u, tv) {
      TwinsRepeated(v, u, tv);
    }
    if Distinct(u) && RepeatedIn(v, PairBoxes(v, u), tv) {
      RepeatedTwins(v, u, tv);
    }
  }

  lemma TwinsRepeated(v: Board, u: Unit, tv: string)
    requires forall b :: b in u ==> b in v
    requires TwinsIn(v, u, tv)
    ensures RepeatedIn(v, PairBoxes(v, u), tv)
  {
    var place := PairBoxes(v, u);
    var a, b :| a in u && b in u && a != b && v[a] == tv && v[b] == tv;
    assert a in place && b in place;
    var ma :| 0 <= ma < |place| && place[ma] == a;
    var mb :| 0 <= mb < |place| && place[mb] == b;
    if ma < mb {
      assert v[place[ma]] == tv && v[place[mb]] == tv;
    } else {
      assert v[place[mb]] == tv && v[place[ma]] == tv;
    }
  }

  lemma RepeatedTwins(v: Board, u: Unit, tv: string)
    requires forall b :: b in u ==> b in v
    requires Distinct(u) && RepeatedIn(v, PairBoxes(v, u), tv)
    ensures TwinsIn(v, u, tv)
  {
    var place := PairBoxes(v, u);
    var m, m' :| 0 <= m < m' < |place| && v[place[m]] == tv && v[place[m']] == tv;
    assert place[m] in place && place[m'] in place;
    assert place[m] != place[m'];
  }

  /** The body of the first loop of `naked_twins` for one unit: `(unit,
      value)` is appended each time a two-candidate box repeats a value
      already seen in that unit. */
  method ScanUnit(values: Board, unit: Unit, twins0: seq<(Unit, string)>) returns (twins: seq<(Unit, string)>)
    requires forall b :: b in unit ==> b in values
    ensures forall t :: t in twins <==> t in twins0 || (t.0 == unit && RepeatedIn(values, PairBoxes(values, unit), t.1))
  {
    twins := twins0;
    var seen: set<string> := {};
    var place := PairBoxes(values, unit);
    for k := 0 to |place|
      invariant SeenBefore(values, place, k, seen)
      invariant Recorded(values, unit, place, k, twins0, twins)
    {
      seen, twins := ScanPlace(values, unit, place, k, seen, twins0, twins);
    }
    RecordedAll(values, unit, place, twins0, twins);
  }

  /** One position of the loop in `ScanUnit`: the value of box `place[k]`
      joins `seen`, or, when it is already there, `(unit, value)` is
      appended to `twins`. */
  method ScanPlace(values: Board, unit: Unit, place: seq<Cell>, k: nat, seen: set<string>,
                   ghost twins0: seq<(Unit, string)>, twins: seq<(Unit, string)>)
    returns (seen': set<string>, twins': seq<(Unit, string)>)
    requires forall b :: b in place ==> b in values
    requires k < |place| && SeenBefore(values, place, k, seen)
    requires Recorded(values, unit, place, k, twins0, twins)
    ensures SeenBefore(values, place, k + 1, seen')
    ensures Recorded(values, unit, place, k + 1, twins0, twins')
  {
    var box := place[k];
    ghost var repeated := values[box] in seen;
    SeenGrows(values, place, k, seen);
    RecordedStep(values, unit, place, k, twins0, twins, repeated);
    if values[box] !in seen {
      seen', twins' := seen + {values[box]}, twins;
    } else {
      seen', twins' := seen, twins + [(unit, values[box])];
    }
  }

  /** `Recorded` over the whole of `place` is the postcondition of
      `ScanUnit`. */
  lemma RecordedAll(values: Board, unit: Unit, place: seq<Cell>, twins0: seq<(Unit, string)>,
                    twins: seq<(Unit, string)>)
    requires forall b :: b in place ==> b in values
    requires Recorded(values, unit, place, |place|, twins0, twins)
    ensures forall t :: t in twins <==> t in twins0 || (t.0 == unit && RepeatedIn(values, place, t.1))
  {
    assert place[..|place|] == place;
  }

  /** The pairs recorded after the first `k` positions of `place`: `twins0`
      and `(unit, tv)` for each value `tv` repeated among them. */
  ghost predicate Recorded(values: Board, unit: Unit, place: seq<Cell>, k: nat, twins0: seq<(Unit, string)>,
                     twins: seq<(Unit, string)>)
    requires forall b :: b in place ==> b in values
    requires k <= |place|
  {
    forall t :: t in twins <==> t in twins0 || (t.0 == unit && RepeatedIn(values, place[..k], t.1))
  }

  /** `seen` holds the values of the first `k` positions of `place`. */
  ghost predicate SeenBefore(values: Board, place: seq<Cell>, k: nat, seen: set<string>)
    requires forall b :: b in place ==> b in values
    requires k <= |place|
  {
    forall x :: x in seen <==> exists m :: 0 <= m < k && values[place[m]] == x
  }

  /** The set of values seen grows by the value at position `k`, which was
      in it exactly when an earlier position holds it too. */
  lemma SeenGrows(values: Board, place: seq<Cell>, k: nat, seen: set<string>)
    requires forall b :: b in place ==> b in values
    requires k < |place| && SeenBefore(values, place, k, seen)
    ensures SeenBefore(values, place, k + 1, seen + {values[place[k]]})
    ensures values[place[k]] in seen <==> exists m :: 0 <= m < k && values[place[m]] == values[place[k]]
    ensures values[place[k]] in seen ==> SeenBefore(values, place, k + 1, seen)
  {
    assert place[k] in place;
    if values[place[k]] in seen {
      assert seen + {values[place[k]]} == seen;
    }
  }

  /** Recording `(unit, values[place[k]])` exactly when that value was
      seen before keeps `Recorded` one position on. */
  lemma RecordedStep(values: Board, unit: Unit, place: seq<Cell>, k: nat, twins0: seq<(Unit, string)>,
                     twins: seq<(Unit, string)>, repeated: bool)
    requires forall b :: b in place ==> b in values
    requires k < |place| && Recorded(values, unit, place, k, twins0, twins)
    requires repeated <==> exists m :: 0 <= m < k && values[place[m]] == values[place[k]]
    ensures Recorded(values, unit, place, k + 1, twins0,
                     if repeated then twins + [(unit, values[place[k]])] else twins)
  {
    forall tv {
      RepeatedExtend(values, place, k, tv);
    }
  }

  /** Every box a unit of `units` names is a box of `v`. */
  predicate Covers(v: Board, units: seq<Unit>) {
    forall u, b :: u in units && b in u ==> b in v
  }

  /** `(u, tv)` is recorded as a twin pair: `u` is one of `units` and the
      value `tv` shows up twice among its two-candidate boxes. */
  predicate Found(v: Board, units: seq<Unit>, u: Unit, tv: string)
    requires Covers(v, units)
  {
    u in units && RepeatedIn(v, PairBoxes(v, u), tv)
  }

  /** A value found twice among two-candidate boxes has two characters. */
  lemma FoundIsPair(v: Board, units: seq<Unit>, u: Unit, tv: string)
    requires Covers(v, units) && Found(v, units, u, tv)
    ensures |tv| == 2
  {
    var place := PairBoxes(v, u);
    var m, m' :| 0 <= m < m' < |place| && v[place[m]] == tv && v[place[m']] == tv;
    assert place[m] in place;
  }

  /** The first loop of `naked_twins`, over every unit. */
  method FindTwins(values: Board, units: seq<Unit>) returns (twins: seq<(Unit, string)>)
    requires Covers(values, units)
    ensures forall t :: t in twins <==> Found(values, units, t.0, t.1)
  {
    twins := [];
    for i := 0 to |units|
      invariant forall t :: t in twins <==> Found(values, units[..i], t.0, t.1)
    {
      var before := twins;
      twins := ScanUnit(values, units[i], twins);
      assert units[..i + 1] == units[..i] + [units[i]];
      forall t
        ensures t in twins <==> Found(values, units[..i + 1], t.0, t.1)
      {
        assert t in before <==> Found(values, units[..i], t.0, t.1);
      }
    }
    assert units[..|units|] == units;
  }

  /** Two different boxes of `u` are narrowed to (parts of) the two
      candidates `tv`: whatever a solution puts there uses up both digits of
      `tv`, so no other box of `u` can take either of them. */
  predicate Locked(v: Board, u: Unit, tv: string) {
    |tv| == 2 && exists a, b :: a in u && b in u && a != b && a in v && b in v && Subseq(v[a], tv) && Subseq(v[b], tv)
  }

  lemma TwinsLocked(v: Board, u: Unit, tv: string)
    requires forall b :: b in u ==> b in v
    requires TwinsIn(v, u, tv)
    ensures Locked(v, u, tv)
  {
    var a, b :| a in u && b in u && a != b && v[a] == tv && v[b] == tv;
    SubseqRefl(tv);
  }

  lemma LockedShrink(v: Board, w: Board, u: Unit, tv: string)
    requires Locked(v, u, tv) && Refines(w, v)
    ensures Locked(w, u, tv)
  {
    var a, b :| a in u && b in u && a != b && a in v && b in v && Subseq(v[a], tv) && Subseq(v[b], tv);
    SubseqTrans(w[a], v[a], tv);
    SubseqTrans(w[b], v[b], tv);
  }

  /** Removing the digits of `tv` from a box of a locked unit that is not
      itself narrowed to `tv` loses no solution. */
  lemma PruneKeeps(v: Board, units: seq<Unit>, u: Unit, tv: string, box: Cell, x: Candidates)
    requires u in units && Locked(v, u, tv)
    requires box in u && box in v && !Subseq(v[box], tv)
    requires forall c :: c in v[box] && c !in tv ==> c in x
    ensures KeepsSolutions(v, v[box := x], units)
  {
    var a, b :| a in u && b in u && a != b && a in v && b in v && Subseq(v[a], tv) && Subseq(v[b], tv);
    forall sol | IsSolution(sol, units) && Agrees(sol, v)
      ensures Agrees(sol, v[box := x])
    {
      SubseqMember(v[a], tv, sol[a]);
      SubseqMember(v[b], tv, sol[b]);
      assert sol[a] != sol[b];
      if box != a && box != b {
        assert sol[box] != sol[a] && sol[box] != sol[b];
        assert sol[box] !in tv by {
          assert tv == [tv[0], tv[1]];
        }
      }
      AgreesUpdate(sol, v, box, x);
    }
  }

  /** After the rule has handled the twin value `tv`, box `b` holds at
      most one candidate, the pair `tv` itself, or neither digit of `tv`. */
  predicate PrunedBox(v: Board, b: Cell, tv: string)
    requires b in v
  {
    |v[b]| <= 1 || v[b] == tv || forall c :: c in tv ==> c !in v[b]
  }

  lemma PrunedShrink(v: Board, w: Board, b: Cell, tv: string)
    requires b in v && b in w && |tv| == 2
    requires PrunedBox(v, b, tv) && Subseq(w[b], v[b])
    ensures PrunedBox(w, b, tv)
  {
    SubseqLength(w[b], v[b]);
    if v[b] == tv {
      SubseqOfPair(w[b], tv);
    } else if |v[b]| > 1 {
      forall c | c in tv
        ensures c !in w[b]
      {
        if c in w[b] {
          SubseqMember(w[b], v[b], c);
        }
      }
    }
  }

  /** `for box in unit: if len(values[box]) > 1 and values[box] !=
      twins_value: ...`, the second loop of `naked_twins` for one recorded
      pair. */
  method PruneUnit(r0: Board, unit: Unit, tv: string, ghost units: seq<Unit>) returns (r: Board)
    requires forall b :: b in unit ==> b in r0
    requires |tv| == 2
    ensures Refines(r, r0)
    ensures forall b :: b in r0 && b !in unit ==> r[b] == r0[b]
    ensures forall b :: b in r0 && (|r0[b]| <= 1 || r0[b] == tv) ==> r[b] == r0[b]
    ensures forall b, c :: b in r0 && c in r0[b] && c !in r[b] ==> c in tv
    ensures forall b :: b in unit ==> PrunedBox(r, b, tv)
    ensures forall b :: b in unit && |r0[b]| > 1 && r0[b] != tv ==> Stripped(r[b], r0[b], tv)
    ensures unit in units && Locked(r0, unit, tv) ==> KeepsSolutions(r0, r, units)
  {
    r := r0;
    RefinesRefl(r0);
    for k := 0 to |unit|
      invariant PruneInv(r0, unit, tv, units, r, k)
    {
      var box := unit[k];
      if |r[box]| > 1 && r[box] != tv {
        var x := RemoveDigits(r[box], tv);
        PruneStep(r0, unit, tv, units, r, k, x);
        r := r[box := x];
      } else {
        assert unit[..k + 1] == unit[..k] + [box];
      }
    }
    assert unit[..|unit|] == unit;
  }

  /** The loop invariant of `PruneUnit` after the first `k` boxes of the
      unit. */
  ghost predicate PruneInv(r0: Board, unit: Unit, tv: string, units: seq<Unit>, r: Board, k: nat)
    requires forall b :: b in unit ==> b in r0
    requires k <= |unit|
  {
    && Refines(r, r0)
    && (forall b :: b in r0 && b !in unit[..k] ==> r[b] == r0[b])
    && (forall b :: b in r0 && (|r0[b]| <= 1 || r0[b] == tv) ==> r[b] == r0[b])
    && (forall b, c :: b in r0 && c in r0[b] && c !in r[b] ==> c in tv)
    && (forall b :: b in unit[..k] ==> PrunedBox(r, b, tv))
    && (forall b :: b in unit[..k] && |r0[b]| > 1 && r0[b] != tv ==> Stripped(r[b], r0[b], tv))
    && (unit in units && Locked(r0, unit, tv) ==> KeepsSolutions(r0, r, units))
  }

  /** Stripping the box at position `k` of the pair's digits takes the
      invariant of `PruneUnit` one box on. */
  lemma PruneStep(r0: Board, unit: Unit, tv: string, units: seq<Unit>, r: Board, k: nat, x: string)
    requires forall b :: b in unit ==> b in r0
    requires k < |unit| && |tv| == 2
    requires PruneInv(r0, unit, tv, units, r, k)
    requires |r[unit[k]]| > 1 && r[unit[k]] != tv
    requires Subseq(x, r[unit[k]]) && Stripped(x, r[unit[k]], tv)
    ensures PruneInv(r0, unit, tv, units, r[unit[k] := x], k + 1)
  {
    var box := unit[k];
    var w := r[box := x];
    assert unit[..k + 1] == unit[..k] + [box];
    UpdateRefines(r0, r, box, x);
    assert |r0[box]| > 1 && r0[box] != tv;
    assert Stripped(x, r0[box], tv) by {
      if box in unit[..k] {
        assert Stripped(r[box], r0[box], tv);
      }
    }
    forall b, c | b in r0 && c in r0[b] && c !in w[b]
      ensures c in tv
    {
    }
    forall b | b in unit[..k + 1]
      ensures PrunedBox(w, b, tv)
    {
      if b != box {
        assert b in unit[..k];
      }
    }
    forall b | b in unit[..k + 1] && |r0[b]| > 1 && r0[b] != tv
      ensures Stripped(w[b], r0[b], tv)
    {
      if b != box {
        assert b in unit[..k];
      }
    }
    PruneStepKeeps(r0, unit, tv, units, r, box, x);
  }

  /** Stripping a box of the unit that is not one of the pair keeps every
      solution when the pair is locked. */
  lemma PruneStepKeeps(r0: Board, unit: Unit, tv: string, units: seq<Unit>, r: Board, box: Cell, x: string)
    requires box in unit && box in r && |tv| == 2
    requires Refines(r, r0)
    requires unit in units && Locked(r0, unit, tv) ==> KeepsSolutions(r0, r, units)
    requires |r[box]| > 1 && r[box] != tv
    requires Stripped(x, r[box], tv)
    ensures unit in units && Locked(r0, unit, tv) ==> KeepsSolutions(r0, r[box := x], units)
  {
    if unit in units && Locked(r0, unit, tv) {
      LockedShrink(r0, r, unit, tv);
      if Subseq(r[box], tv) {
        SubseqOfPair(r[box], tv);
      }
      PruneKeeps(r, units, unit, tv, box, x);
      KeepsSolutionsTrans(r0, r, r[box := x], units);
    }
  }

  /** Candidate `c` of box `b` may be removed because of a recorded pair:
      `b` lies in a unit where the value `tv`, which contains `c`, was found
      twice. */
  ghost predicate TwinCause(v: Board, units: seq<Unit>, b: Cell, c: char)
    requires Covers(v, units)
  {
    exists u, tv :: Found(v, units, u, tv) && b in u && c in tv
  }

  /** Narrowing boxes keeps every pruned pair pruned. */
  lemma PrunedStays(v: Board, w: Board, twins: seq<(Unit, string)>, n: nat)
    requires Refines(w, v) && n <= |twins|
    requires forall j, b :: 0 <= j < n && b in twins[j].0 ==> b in v && |twins[j].1| == 2 && PrunedBox(v, b, twins[j].1)
    ensures forall j, b :: 0 <= j < n && b in twins[j].0 ==> PrunedBox(w, b, twins[j].1)
  {
    forall j, b | 0 <= j < n && b in twins[j].0
      ensures PrunedBox(w, b, twins[j].1)
    {
      PrunedShrink(v, w, b, twins[j].1);
    }
  }

  lemma PrunedExtend(w: Board, twins: seq<(Unit, string)>, n: nat)
    requires n < |twins| && forall b :: b in twins[n].0 ==> b in w
    requires forall j, b :: 0 <= j < n && b in twins[j].0 ==> b in w && PrunedBox(w, b, twins[j].1)
    requires forall b :: b in twins[n].0 ==> PrunedBox(w, b, twins[n].1)
    ensures forall j, b :: 0 <= j < n + 1 && b in twins[j].0 ==> PrunedBox(w, b, twins[j].1)
  {
  }

  /** `naked_twins` of p-sudoku/solution.py: record every pair first, then
      prune each recorded pair's unit. */
  method NakedTwins(values: Board, units: seq<Unit>) returns (r: Board)
    requires IsBoard(values) && Covers(values, units)
    ensures IsBoard(r) && Refines(r, values)
    ensures forall b :: b in values && |values[b]| <= 1 ==> r[b] == values[b]
    ensures forall b, c :: b in values && c in values[b] && c !in r[b] ==> TwinCause(values, units, b, c)
    ensures forall u, tv, b :: Found(values, units, u, tv) && b in u ==> PrunedBox(r, b, tv)
    ensures UnitsDistinct(units) ==> KeepsSolutions(values, r, units)
  {
    var twins := FindTwins(values, units);
    forall j | 0 <= j < |twins|
      ensures |twins[j].1| == 2 && forall b :: b in twins[j].0 ==> b in values
    {
      assert twins[j] in twins;
      FoundIsPair(values, units, twins[j].0, twins[j].1);
    }
    r := values;
    RefinesRefl(values);
    for i := 0 to |twins|
      invariant Refines(r, values)
      invariant forall b :: b in values && |values[b]| <= 1 ==> r[b] == values[b]
      invariant forall b, c :: b in values && c in values[b] && c !in r[b] ==> TwinCause(values, units, b, c)
      invariant forall j, b :: 0 <= j < i && b in twins[j].0 ==> PrunedBox(r, b, twins[j].1)
      invariant UnitsDistinct(units) ==> KeepsSolutions(values, r, units)
    {
      var unit, tv := twins[i].0, twins[i].1;
      assert twins[i] in twins;
      FoundIsPair(values, units, unit, tv);
      var before := r;
      r := PruneUnit(before, unit, tv, units);
      RefinesTrans(r, before, values);
      forall b, c | b in values && c in values[b] && c !in r[b]
        ensures TwinCause(values, units, b, c)
      {
        if c in before[b] {
          assert Found(values, units, unit, tv) && b in unit && c in tv;
        }
      }
      PrunedStays(before, r, twins, i);
      PrunedExtend(r, twins, i);
      if UnitsDistinct(units) {
        RepeatedIsTwins(values, unit, tv);
        TwinsLocked(values, unit, tv);
        LockedShrink(values, before, unit, tv);
        KeepsSolutionsTrans(values, before, r, units);
      }
    }
    forall u, tv, b | Found(values, units, u, tv) && b in u
      ensures PrunedBox(r, b, tv)
    {
      var t := (u, tv);
      assert Found(values, units, t.0, t.1);
      assert t in twins;
      var j :| 0 <= j < |twins| && twins[j] == t;
    }
  }

  /** `s` holds neither digit of `tv`. */
  predicate NoneOf(s: string, tv: string) {
    forall c :: c in tv ==> c !in s
  }

  lemma NoneOfShrink(a: string, b: string, tv: string)
    requires Subseq(a, b) && NoneOf(b, tv)
    ensures NoneOf(a, tv)
  {
    forall c | c in tv
      ensures c !in a
    {
      if c in a {
        SubseqMember(a, b, c);
      }
    }
  }

  /** `s` is `s0` with the digits of `tv` taken out: those go, every other
      character stays as often as it was there. */
  predicate Stripped(s: string, s0: string, tv: string) {
    (forall c :: multiset(s)[c] == if c in tv then 0 else multiset(s0)[c])
    && (forall c :: c in s <==> c in s0 && c !in tv)
  }

  /** `eliminate_peer_possibilities_for_naked_twins` of the top-level
      solution.py: every box of `unit` with more than two candidates loses
      the digits of `tv`; boxes with two candidates or fewer are left
      alone. */
  method EliminateForTwins(r0: Board, unit: Unit, tv: string, ghost units: seq<Unit>) returns (r: Board)
    requires forall b :: b in unit ==> b in r0
    ensures Refines(r, r0)
    ensures forall b :: b in r0 && (b !in unit || |r0[b]| <= 2) ==> r[b] == r0[b]
    ensures forall b :: b in unit && |r0[b]| > 2 ==> Stripped(r[b], r0[b], tv)
    ensures unit in units && Locked(r0, unit, tv) ==> KeepsSolutions(r0, r, units)
  {
    r := r0;
    RefinesRefl(r0);
    for k := 0 to |unit|
      invariant Refines(r, r0)
      invariant forall b :: b in r0 && (b !in unit[..k] || |r0[b]| <= 2) ==> r[b] == r0[b]
      invariant forall b :: b in unit[..k] && |r0[b]| > 2 ==> Stripped(r[b], r0[b], tv)
      invariant unit in units && Locked(r0, unit, tv) ==> KeepsSolutions(r0, r, units)
    {
      var box := unit[k];
      assert unit[..k + 1] == unit[..k] + [box];
      if |r[box]| > 2 {
        var x := RemoveDigits(r[box], tv);
        if unit in units && Locked(r0, unit, tv) {
          LockedShrink(r0, r, unit, tv);
          if Subseq(r[box], tv) {
            SubseqLength(r[box], tv);
          }
          PruneKeeps(r, units, unit, tv, box, x);
          KeepsSolutionsTrans(r0, r, r[box := x], units);
        }
        UpdateRefines(r0, r, box, x);
        assert |r0[box]| > 2 by {
          SubseqLength(r[box], r0[box]);
        }
        assert Stripped(x, r0[box], tv) by {
          if box in unit[..k] {
            assert Stripped(r[box], r0[box], tv);
          }
        }
        r := r[box := x];
      }
    }
    assert unit[..|unit|] == unit;
  }

  /** Candidate `c` may leave a box of `u` because some value `tv` holding
      `c` repeats among the two-candidate boxes of `u`. */
  ghost predicate PairCause(v: Board, u: Unit, c: char)
    requires forall b :: b in u ==> b in v
  {
    exists tv :: RepeatedIn(v, PairBoxes(v, u), tv) && c in tv
  }

  /** Every box of `unit` that still has more than two candidates holds
      neither digit of `tv`. */
  predicate ClearOf(v: Board, unit: Unit, tv: string)
    requires forall b :: b in unit ==> b in v
  {
    forall b :: b in unit && |v[b]| > 2 ==> NoneOf(v[b], tv)
  }

  /** Narrowing keeps a unit clear of `tv`. */
  lemma ClearOfStays(v: Board, w: Board, unit: Unit, tv: string)
    requires Refines(w, v) && forall b :: b in unit ==> b in v
    requires ClearOf(v, unit, tv)
    ensures ClearOf(w, unit, tv)
  {
    forall b | b in unit && |w[b]| > 2
      ensures NoneOf(w[b], tv)
    {
      SubseqLength(w[b], v[b]);
      NoneOfShrink(w[b], v[b], tv);
    }
  }

  /** The loop invariant of `ScanAndPrune` after the first `k`
      two-candidate boxes of `unit`. */
  ghost predicate ScanInv(r0: Board, unit: Unit, r: Board, k: nat, units: seq<Unit>)
    requires forall b :: b in unit ==> b in r0
    requires k <= |PairBoxes(r0, unit)|
  {
    && Refines(r, r0)
    && (forall b :: b in r0 && (b !in unit || |r0[b]| <= 2) ==> r[b] == r0[b])
    && PairCaused(r0, unit, r)
    && ClearOfSeen(r0, unit, r, k)
    && (unit in units && Distinct(unit) ==> KeepsSolutions(r0, r, units))
  }

  /** Every candidate `r` lost from `r0` is a digit of a repeated pair. */
  ghost predicate PairCaused(r0: Board, unit: Unit, r: Board)
    requires forall b :: b in unit ==> b in r0
  {
    forall b, c :: b in r0 && b in r && c in r0[b] && c !in r[b] ==> PairCause(r0, unit, c)
  }

  /** `unit` is clear of every pair repeated among its first `k`
      two-candidate boxes. */
  ghost predicate ClearOfSeen(r0: Board, unit: Unit, r: Board, k: nat)
    requires forall b :: b in unit ==> b in r0
    requires k <= |PairBoxes(r0, unit)|
  {
    && (forall b :: b in unit ==> b in r)
    && forall tv :: RepeatedIn(r0, PairBoxes(r0, unit)[..k], tv) ==> ClearOf(r, unit, tv)
  }

  /** A two-candidate box whose value was not seen before adds no
      repeated value. */
  lemma FreshValueStep(r0: Board, r: Board, unit: Unit, k: nat, units: seq<Unit>)
    requires forall b :: b in unit ==> b in r0
    requires k < |PairBoxes(r0, unit)|
    requires forall m :: 0 <= m < k ==> r0[PairBoxes(r0, unit)[m]] != r0[PairBoxes(r0, unit)[k]]
    requires ScanInv(r0, unit, r, k, units)
    ensures ScanInv(r0, unit, r, k + 1, units)
  {
    forall tv | RepeatedIn(r0, PairBoxes(r0, unit)[..k + 1], tv)
      ensures ClearOf(r, unit, tv)
    {
      RepeatedExtend(r0, PairBoxes(r0, unit), k, tv);
    }
  }

  /** Pruning `unit` of `tv`, the value the two-candidate boxes at
      positions `m` and `k` share, takes the invariant one position on. */
  lemma PruneFoundStep(r0: Board, before: Board, r: Board, unit: Unit, k: nat, m: nat, tv: string, units: seq<Unit>)
    requires forall b :: b in unit ==> b in r0
    requires m < k < |PairBoxes(r0, unit)|
    requires r0[PairBoxes(r0, unit)[m]] == tv && r0[PairBoxes(r0, unit)[k]] == tv
    requires ScanInv(r0, unit, before, k, units)
    requires Refines(r, before)
    requires forall b :: b in before && (b !in unit || |before[b]| <= 2) ==> r[b] == before[b]
    requires forall b :: b in unit && |before[b]| > 2 ==> Stripped(r[b], before[b], tv)
    requires unit in units && Locked(before, unit, tv) ==> KeepsSolutions(before, r, units)
    ensures ScanInv(r0, unit, r, k + 1, units)
  {
    var place := PairBoxes(r0, unit);
    RefinesTrans(r, before, r0);
    forall b, c | b in r0 && c in r0[b] && c !in r[b]
      ensures PairCause(r0, unit, c)
    {
      if c in before[b] {
        assert RepeatedIn(r0, place, tv) by {
          assert r0[place[m]] == tv && r0[place[k]] == tv;
        }
      }
    }
    forall tv' | RepeatedIn(r0, place[..k + 1], tv')
      ensures ClearOf(r, unit, tv')
    {
      RepeatedExtend(r0, place, k, tv');
      if RepeatedIn(r0, place[..k], tv') {
        ClearOfStays(before, r, unit, tv');
      } else {
        forall b | b in unit && |r[b]| > 2
          ensures NoneOf(r[b], tv')
        {
          SubseqLength(r[b], before[b]);
        }
      }
    }
    if unit in units && Distinct(unit) {
      assert place[m] in place && place[k] in place;
      SubseqRefl(tv);
      assert before[place[m]] == tv && before[place[k]] == tv;
      assert Locked(before, unit, tv);
      KeepsSolutionsTrans(r0, before, r, units);
    }
  }

  /** The box at position `k` still holds its starting pair, and the set
      of values seen grows by that pair. */
  lemma SeenStep(r0: Board, r: Board, unit: Unit, k: nat, units: seq<Unit>, seen: set<string>)
    requires forall b :: b in unit ==> b in r0
    requires k < |PairBoxes(r0, unit)|
    requires ScanInv(r0, unit, r, k, units)
    requires seen == set m | 0 <= m < k :: r0[PairBoxes(r0, unit)[m]]
    ensures PairBoxes(r0, unit)[k] in r && r[PairBoxes(r0, unit)[k]] == r0[PairBoxes(r0, unit)[k]]
    ensures seen + {r0[PairBoxes(r0, unit)[k]]} == set m | 0 <= m < k + 1 :: r0[PairBoxes(r0, unit)[m]]
  {
    var place := PairBoxes(r0, unit);
    assert place[k] in place;
  }

  /** The body of the inner loop of `naked_twins` of the top-level
      solution.py, for the two-candidate box at position `k`: a value not
      seen before is recorded, a value seen before has its digits removed
      from the rest of the unit. */
  method ScanBox(r0: Board, unit: Unit, ghost units: seq<Unit>, r: Board, k: nat, seen: set<string>)
    returns (r': Board, seen': set<string>)
    requires forall b :: b in unit ==> b in r0
    requires k < |PairBoxes(r0, unit)|
    requires ScanInv(r0, unit, r, k, units)
    requires seen == set m | 0 <= m < k :: r0[PairBoxes(r0, unit)[m]]
    ensures ScanInv(r0, unit, r', k + 1, units)
    ensures seen' == set m | 0 <= m < k + 1 :: r0[PairBoxes(r0, unit)[m]]
  {
    var place := PairBoxes(r0, unit);
    var box := place[k];
    SeenStep(r0, r, unit, k, units, seen);
    var tv := r[box];
    if tv !in seen {
      FreshValueStep(r0, r, unit, k, units);
      r', seen' := r, seen + {tv};
    } else {
      var m :| 0 <= m < k && r0[place[m]] == tv;
      r' := EliminateForTwins(r, unit, tv, units);
      PruneFoundStep(r0, r, r', unit, k, m, tv, units);
      assert seen == seen + {tv};
      seen' := seen;
    }
  }

  /** One unit of the loop in `naked_twins` of the top-level solution.py:
      the two-candidate boxes are listed once, up front, and each time one of
      them repeats a value already seen, the unit is pruned of that value
      straight away. */
  method ScanAndPrune(r0: Board, unit: Unit, ghost units: seq<Unit>) returns (r: Board)
    requires forall b :: b in unit ==> b in r0
    ensures Refines(r, r0)
    ensures forall b :: b in r0 && (b !in unit || |r0[b]| <= 2) ==> r[b] == r0[b]
    ensures forall b, c :: b in r0 && c in r0[b] && c !in r[b] ==> PairCause(r0, unit, c)
    ensures forall tv :: RepeatedIn(r0, PairBoxes(r0, unit), tv) ==> ClearOf(r, unit, tv)
    ensures unit in units && Distinct(unit) ==> KeepsSolutions(r0, r, units)
  {
    r := r0;
    RefinesRefl(r0);
    var seen: set<string> := {};
    var place := PairBoxes(r0, unit);
    for k := 0 to |place|
      invariant ScanInv(r0, unit, r, k, units)
      invariant seen == set m | 0 <= m < k :: r0[place[m]]
    {
      r, seen := ScanBox(r0, unit, units, r, k, seen);
    }
    assert place[..|place|] == place;
  }

  /** Boxes with at most two candidates never change, so twins stay twins. */
  lemma TwinsPersist(v: Board, w: Board, u: Unit, tv: string)
    requires forall b :: b in u ==> b in v && b in w
    requires forall b :: b in v && |v[b]| <= 2 ==> b in w && w[b] == v[b]
    requires TwinsIn(v, u, tv)
    ensures TwinsIn(w, u, tv)
  {
    var a, b :| a in u && b in u && a != b && v[a] == tv && v[b] == tv;
    assert w[a] == tv && w[b] == tv;
  }

  /** Narrowing keeps every handled unit clear of its twins. */
  lemma ClearOfAll(values: Board, v: Board, w: Board, units: seq<Unit>, n: nat)
    requires Covers(values, units) && values.Keys == v.Keys && Refines(w, v) && n <= |units|
    requires forall j, tv :: 0 <= j < n && TwinsIn(values, units[j], tv) ==> ClearOf(v, units[j], tv)
    ensures forall j, tv :: 0 <= j < n && TwinsIn(values, units[j], tv) ==> ClearOf(w, units[j], tv)
  {
    forall j, tv | 0 <= j < n && TwinsIn(values, units[j], tv)
      ensures ClearOf(w, units[j], tv)
    {
      ClearOfStays(v, w, units[j], tv);
    }
  }

  /** Candidate `c` may have left box `b` because another box of a unit
      holding `b` has exactly two candidates, `c` among them. */
  ghost predicate PairNearby(v: Board, units: seq<Unit>, b: Cell, c: char) {
    exists u, a :: u in units && b in u && a in u && a in v && a != b && |v[a]| == 2 && c in v[a]
  }

  /** The loop invariant of `NakedTwinsAsFound` after the first `n` units. */
  ghost predicate AsFoundInv(values: Board, units: seq<Unit>, r: Board, n: nat)
    requires Covers(values, units) && n <= |units|
  {
    && Refines(r, values)
    && (forall b :: b in values && |values[b]| <= 2 ==> r[b] == values[b])
    && (forall b, c :: b in values && c in values[b] && c !in r[b] ==> PairNearby(r, units, b, c))
    && (forall j, tv :: 0 <= j < n && TwinsIn(values, units[j], tv) ==> ClearOf(r, units[j], tv))
    && (UnitsDistinct(units) ==> KeepsSolutions(values, r, units))
  }

  /** Scanning and pruning unit `n` takes the invariant one unit on. */
  lemma AsFoundStep(values: Board, units: seq<Unit>, before: Board, r: Board, n: nat)
    requires Covers(values, units) && n < |units|
    requires AsFoundInv(values, units, before, n)
    requires Refines(r, before)
    requires forall b :: b in before && (b !in units[n] || |before[b]| <= 2) ==> r[b] == before[b]
    requires forall b, c :: b in before && c in before[b] && c !in r[b] ==> PairCause(before, units[n], c)
    requires forall tv :: RepeatedIn(before, PairBoxes(before, units[n]), tv) ==> ClearOf(r, units[n], tv)
    requires Distinct(units[n]) ==> KeepsSolutions(before, r, units)
    ensures AsFoundInv(values, units, r, n + 1)
  {
    var unit := units[n];
    RefinesTrans(r, before, values);
    ClearOfAll(values, before, r, units, n);
    forall tv | TwinsIn(values, unit, tv)
      ensures ClearOf(r, unit, tv)
    {
      TwinsPersist(values, before, unit, tv);
      RepeatedIsTwins(before, unit, tv);
    }
    forall b, c | b in values && c in values[b] && c !in r[b]
      ensures PairNearby(r, units, b, c)
    {
      if c in before[b] {
        PrunedNearby(before, r, units, n, b, c);
      } else {
        NearbyStays(before, r, units, b, c);
      }
    }
    if UnitsDistinct(units) {
      assert unit in units;
      KeepsSolutionsTrans(values, before, r, units);
    }
  }

  /** A candidate pruned while unit `n` is handled has a two-candidate
      neighbour holding it, and that neighbour is never touched again. */
  lemma PrunedNearby(before: Board, r: Board, units: seq<Unit>, n: nat, b: Cell, c: char)
    requires n < |units| && Covers(before, units) && r.Keys == before.Keys
    requires forall x :: x in before && (x !in units[n] || |before[x]| <= 2) ==> r[x] == before[x]
    requires b in before && c in before[b] && c !in r[b] && PairCause(before, units[n], c)
    ensures PairNearby(r, units, b, c)
  {
    var unit := units[n];
    var place := PairBoxes(before, unit);
    var tv :| RepeatedIn(before, place, tv) && c in tv;
    var m, m' :| 0 <= m < m' < |place| && before[place[m]] == tv && before[place[m']] == tv;
    var a := place[m];
    assert a in unit && |before[a]| == 2;
    assert b in unit && |before[b]| > 2;
    assert r[a] == tv;
  }

  /** A two-candidate neighbour outlives a step that leaves boxes of at
      most two candidates alone. */
  lemma NearbyStays(before: Board, r: Board, units: seq<Unit>, b: Cell, c: char)
    requires r.Keys == before.Keys
    requires forall x :: x in before && |before[x]| <= 2 ==> r[x] == before[x]
    requires PairNearby(before, units, b, c)
    ensures PairNearby(r, units, b, c)
  {
    var u, a :| u in units && b in u && a in u && a in before && a != b && |before[a]| == 2 && c in before[a];
    assert r[a] == before[a];
  }

  /** Once every unit is handled, every unit is clear of the twins it held
      at the start. */
  lemma AsFoundDone(values: Board, units: seq<Unit>, r: Board)
    requires Covers(values, units) && AsFoundInv(values, units, r, |units|)
    ensures forall u, tv :: u in units && TwinsIn(values, u, tv) ==> ClearOf(r, u, tv)
  {
    forall u, tv | u in units && TwinsIn(values, u, tv)
      ensures ClearOf(r, u, tv)
    {
      var j :| 0 <= j < |units| && units[j] == u;
    }
  }

  /** `naked_twins` of the top-level solution.py: each unit in turn is
      scanned and pruned as soon as a pair turns up, so the board a unit is
      scanned on already carries the prunings of the units before it. */
  method NakedTwinsAsFound(values: Board, units: seq<Unit>) returns (r: Board)
    requires IsBoard(values) && Covers(values, units)
    ensures IsBoard(r) && Refines(r, values)
    ensures forall b :: b in values && |values[b]| <= 2 ==> r[b] == values[b]
    ensures forall b, c :: b in values && c in values[b] && c !in r[b] ==> PairNearby(r, units, b, c)
    ensures forall u, tv :: u in units && TwinsIn(values, u, tv) ==> ClearOf(r, u, tv)
    ensures UnitsDistinct(units) ==> KeepsSolutions(values, r, units)
  {
    r := values;
    RefinesRefl(values);
    for i := 0 to |units|
      invariant AsFoundInv(values, units, r, i)
    {
      var before := r;
      r := ScanAndPrune(before, units[i], units);
      AsFoundStep(values, units, before, r, i);
    }
    AsFoundDone(values, units, r);
  }
}
