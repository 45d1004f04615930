/** Python's ordering of `str` values (code point by code point, a proper prefix
    first) and `sorted` over lists of strings. */
module Ordering {

  /** `a <= b` in Python's string order. */
  predicate Below(a: string, b: string)
    decreases |a|
  {
    |a| == 0 || (|b| > 0 && (a[0] < b[0] || (a[0] == b[0] && Below(a[1..], b[1..]))))
  }

  lemma {:induction false} BelowReflexive(a: string)
    ensures Below(a, a)
    decreases |a|
  {
    if |a| > 0 { BelowReflexive(a[1..]); }
  }

  lemma {:induction false} BelowAntisymmetric(a: string, b: string)
    requires Below(a, b) && Below(b, a)
    ensures a == b
    decreases |a|
  {
    if |a| > 0 {
      BelowAntisymmetric(a[1..], b[1..]);
      assert a == [a[0]] + a[1..] && b == [b[0]] + b[1..];
    }
  }

  lemma {:induction false} BelowTransitive(a: string, b: string, c: string)
    requires Below(a, b) && Below(b, c)
    ensures Below(a, c)
    decreases |a|
  {
    if |a| > 0 && a[0] == b[0] && b[0] == c[0] {
      BelowTransitive(a[1..], b[1..], c[1..]);
    }
  }

  lemma {:induction false} BelowTotal(a: string, b: string)
    ensures Below(a, b) || Below(b, a)
    decreases |a|
  {
    if |a| > 0 && |b| > 0 && a[0] == b[0] {
      BelowTotal(a[1..], b[1..]);
    }
  }

  /** Ascending in Python's string order. */
  predicate Sorted(xs: seq<string>) {
    forall i, j :: 0 <= i < j < |xs| ==> Below(xs[i], xs[j])
  }

  /** `x` inserted into a sorted list at its place. */
  function Insert(x: string, xs: seq<string>): (r: seq<string>)
    ensures multiset(r) == multiset(xs) + multiset{x}
    ensures Sorted(xs) ==> Sorted(r)
    decreases |xs|
  {
    if |xs| == 0 then [x]
    else if Below(x, xs[0]) then
      assert Sorted(xs) ==> Sorted([x] + xs) by {
        if Sorted(xs) {
          forall j | 1 <= j < |[x] + xs| ensures Below(x, ([x] + xs)[j]) {
            if j > 1 { BelowTransitive(x, xs[0], xs[j - 1]); }
          }
        }
      }
      [x] + xs
    else
      var rest := Insert(x, xs[1..]);
      var r := [xs[0]] + rest;
      assert xs == [xs[0]] + xs[1..];
      assert Sorted(xs) ==> Sorted(r) by {
        if Sorted(xs) {
          BelowTotal(x, xs[0]);
          forall j | 0 < j < |r| ensures Below(xs[0], r[j]) {
            assert r[j] in multiset(rest);
            assert r[j] == x || r[j] in multiset(xs[1..]);
            if r[j] != x {
              var k :| 0 <= k < |xs[1..]| && xs[1..][k] == r[j];
              assert xs[1..][k] == xs[k + 1];
            }
          }
        }
      }
      r
  }

  /** Python's `sorted(xs)` on a list of strings: the ascending permutation. */
  function Sort(xs: seq<string>): (r: seq<string>)
    ensures Sorted(r)
    ensures multiset(r) == multiset(xs)
    ensures |r| == |xs|
    decreases |xs|
  {
    if |xs| == 0 then []
    else
      assert xs == [xs[0]] + xs[1..];
      var r := Insert(xs[0], Sort(xs[1..]));
      assert |r| == |multiset(r)|;
      r
  }

  /** The first element of a non-empty sorted list is below every element of it. */
  lemma SortedHeadBelow(a: seq<string>, x: string)
    requires Sorted(a) && x in a
    ensures Below(a[0], x)
  {
    var i :| 0 <= i < |a| && a[i] == x;
    if i == 0 { BelowReflexive(x); }
  }

  /** Two sorted permutations of one multiset are the same list. */
  lemma {:induction false} SortedUnique(a: seq<string>, b: seq<string>)
    requires Sorted(a) && Sorted(b)
    requires multiset(a) == multiset(b)
    ensures a == b
    decreases |a|
  {
    assert |a| == |multiset(a)| == |b|;
    if |a| > 0 {
      assert a[0] in multiset(b) && b[0] in multiset(a);
      SortedHeadBelow(a, b[0]);
      SortedHeadBelow(b, a[0]);
      BelowAntisymmetric(a[0], b[0]);
      var a', b' := a[1..], b[1..];
      assert a == [a[0]] + a' && b == [b[0]] + b';
      calc {
        multiset(a');
        multiset(a) - multiset{a[0]};
        multiset(b) - multiset{b[0]};
        multiset(b');
      }
      SortedUnique(a', b');
    }
  }

  /** `sorted` forgets the order of its argument. */
  lemma SortPermutationInvariant(xs: seq<string>, ys: seq<string>)
    requires multiset(xs) == multiset(ys)
    ensures Sort(xs) == Sort(ys)
  {
    SortedUnique(Sort(xs), Sort(ys));
  }

  /** A list that is already sorted is left as it is. */
  lemma SortSorted(xs: seq<string>)
    requires Sorted(xs)
    ensures Sort(xs) == xs
  {
    SortedUnique(Sort(xs), xs);
  }
}
