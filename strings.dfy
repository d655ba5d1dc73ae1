/** Character strings as the solver uses them: candidate lists such as "1279"
    and box names such as "C4". */
module Strings {

  /** `a` is obtained from `b` by deleting zero or more characters; the
      characters that remain keep their order. This is how a candidate list
      "only shrinks". */
  predicate Subseq(a: string, b: string)
    decreases |b|
  {
    a == [] || (b != [] && ((a[0] == b[0] && Subseq(a[1..], b[1..])) || Subseq(a, b[1..])))
  }

  lemma {:induction false} SubseqRefl(s: string)
    ensures Subseq(s, s)
  {
    if s != [] {
      SubseqRefl(s[1..]);
    }
  }

  lemma {:induction false} SubseqLength(a: string, b: string)
    requires Subseq(a, b)
    ensures |a| <= |b|
    decreases |b|
  {
    if a != [] {
      if a[0] == b[0] && Subseq(a[1..], b[1..]) {
        SubseqLength(a[1..], b[1..]);
      } else {
        SubseqLength(a, b[1..]);
      }
    }
  }

  lemma {:induction false} SubseqMember(a: string, b: string, c: char)
    requires Subseq(a, b) && c in a
    ensures c in b
    decreases |b|
  {
    if a[0] == b[0] && Subseq(a[1..], b[1..]) {
      if c != a[0] {
        SubseqMember(a[1..], b[1..], c);
      }
    } else {
      SubseqMember(a, b[1..], c);
    }
  }

  lemma {:induction false} SubseqTrans(a: string, b: string, c: string)
    requires Subseq(a, b) && Subseq(b, c)
    ensures Subseq(a, c)
    decreases |c|
  {
    if a != [] {
      if b[0] == c[0] && Subseq(b[1..], c[1..]) {
        if a[0] == b[0] && Subseq(a[1..], b[1..]) {
          SubseqTrans(a[1..], b[1..], c[1..]);
        } else {
          SubseqTrans(a, b[1..], c[1..]);
        }
      } else {
        SubseqTrans(a, b, c[1..]);
      }
    }
  }

  /** A subsequence as long as the whole is the whole. */
  lemma {:induction false} SubseqSameLength(a: string, b: string)
    requires Subseq(a, b) && |a| == |b|
    ensures a == b
    decreases |b|
  {
    if a != [] {
      if a[0] == b[0] && Subseq(a[1..], b[1..]) {
        SubseqSameLength(a[1..], b[1..]);
      } else {
        SubseqLength(a, b[1..]);
      }
    }
  }

  /** What is left of a single candidate: itself or nothing. */
  lemma SubseqOfSingleton(a: string, d: char)
    requires Subseq(a, [d])
    ensures a == [] || a == [d]
  {
    SubseqLength(a, [d]);
    if |a| == 1 {
      SubseqSameLength(a, [d]);
    }
  }

  lemma {:induction false} SingletonSubseq(c: char, s: string)
    requires c in s
    ensures Subseq([c], s)
    decreases |s|
  {
    if s[0] != c {
      SingletonSubseq(c, s[1..]);
    }
  }

  /** A candidate list of the same length as a two-candidate list it came
      from is that list; otherwise it holds at most one candidate. */
  lemma SubseqOfPair(a: string, tv: string)
    requires Subseq(a, tv) && |tv| == 2
    ensures a == tv || |a| <= 1
  {
    SubseqLength(a, tv);
    if |a| == 2 {
      SubseqSameLength(a, tv);
    }
  }

  /** `s.replace(c, '')` for a one-character `c`: every occurrence of `c`
      goes, every other character stays as often as it was there, and in
      order. */
  function RemoveChar(s: string, c: char): (r: string)
    ensures Subseq(r, s)
    ensures multiset(r) == multiset(s)[c := 0]
    ensures forall x :: x in r <==> x in s && x != c
  {
    if s == [] then []
    else
      assert s == [s[0]] + s[1..];
      if s[0] == c then RemoveChar(s[1..], c)
      else [s[0]] + RemoveChar(s[1..], c)
  }

  /** `s.replace(pattern, '')` for the patterns `eliminate` passes: a solved
      box's value, which has at most one character. Python leaves the string
      unchanged for the empty pattern. */
  function Delete(s: string, pattern: string): (r: string)
    requires |pattern| <= 1
    ensures pattern == [] ==> r == s
    ensures Subseq(r, s)
    ensures pattern != [] ==> multiset(r) == multiset(s)[pattern[0] := 0]
    ensures forall x :: x in r <==> x in s && (pattern == [] || x != pattern[0])
  {
    if pattern == [] then (SubseqRefl(s); s) else RemoveChar(s, pattern[0])
  }

  /** `for digit in ds: s = s.replace(digit, '')`, the inner loop of both
      naked-twins rules. */
  method RemoveDigits(s: string, ds: string) returns (r: string)
    ensures Subseq(r, s)
    ensures forall x :: multiset(r)[x] == if x in ds then 0 else multiset(s)[x]
    ensures forall x :: x in r <==> x in s && x !in ds
  {
    r := s;
    SubseqRefl(s);
    for k := 0 to |ds|
      invariant Subseq(r, s)
      invariant forall x :: multiset(r)[x] == if x in ds[..k] then 0 else multiset(s)[x]
      invariant forall x :: x in r <==> x in s && x !in ds[..k]
    {
      var before := r;
      r := RemoveChar(r, ds[k]);
      SubseqTrans(r, before, s);
      RemoveDigitsStep(s, before, ds, k);
    }
    assert ds[..|ds|] == ds;
  }

  /** One turn of the loop of `RemoveDigits`: removing `ds[k]` extends
      what has been removed from `ds[..k]` to `ds[..k + 1]`. */
  lemma RemoveDigitsStep(s: string, r: string, ds: string, k: nat)
    requires k < |ds|
    requires forall x :: multiset(r)[x] == if x in ds[..k] then 0 else multiset(s)[x]
    requires forall x :: x in r <==> x in s && x !in ds[..k]
    ensures forall x :: multiset(RemoveChar(r, ds[k]))[x] == if x in ds[..k + 1] then 0 else multiset(s)[x]
    ensures forall x :: x in RemoveChar(r, ds[k]) <==> x in s && x !in ds[..k + 1]
  {
    assert ds[..k + 1] == ds[..k] + [ds[k]];
  }

  /** Python's `<` on strings: lexicographic by character code, a proper
      prefix coming first. `min` in `search` uses it to break ties. */
  predicate LexLess(a: string, b: string)
    decreases |a|
  {
    b != [] && (a == [] || a[0] < b[0] || (a[0] == b[0] && LexLess(a[1..], b[1..])))
  }

  lemma {:induction false} LexLessIrreflexive(a: string)
    ensures !LexLess(a, a)
    decreases |a|
  {
    if a != [] {
      LexLessIrreflexive(a[1..]);
    }
  }

  lemma {:induction false} LexLessTransitive(a: string, b: string, c: string)
    requires LexLess(a, b) && LexLess(b, c)
    ensures LexLess(a, c)
    decreases |a|
  {
    if a != [] && a[0] == b[0] && b[0] == c[0] {
      LexLessTransitive(a[1..], b[1..], c[1..]);
    }
  }

  /** Two different strings are ordered one way or the other. */
  lemma {:induction false} LexLessTotal(a: string, b: string)
    requires a != b
    ensures LexLess(a, b) || LexLess(b, a)
    decreases |a|
  {
    if a != [] && b != [] && a[0] == b[0] {
      assert a == [a[0]] + a[1..] && b == [b[0]] + b[1..];
      LexLessTotal(a[1..], b[1..]);
    }
  }
}
