/**
 * The column statistics pandas computes with `skipna=True`: the present
 * values of a column, their sum (missing counts as 0), their mean (missing
 * when nothing is present) and their median (the middle sorted value, or the
 * average of the two middle ones on an even count).
 */
module Stats {
  import opened Cells

  /** The present values of a column, in column order. */
  function Present(xs: seq<Option<real>>): (r: seq<real>)
    ensures |r| <= |xs|
    ensures |r| == 0 <==> forall i :: 0 <= i < |xs| ==> xs[i].None?
  {
    if xs == [] then []
    else
      var rest := Present(xs[1..]);
      assert forall i :: 1 <= i < |xs| ==> xs[i] == xs[1..][i - 1];
      if xs[0].Some? then [xs[0].value] + rest else rest
  }

  function Sum(s: seq<real>): real {
    if s == [] then 0.0 else s[0] + Sum(s[1..])
  }

  /** `Series.sum()`: missing values are skipped, so an all-missing column sums to 0. */
  function Total(xs: seq<Option<real>>): real {
    Sum(Present(xs))
  }

  /** `Series.mean()`: the mean of the present values, missing if there are none. */
  function Mean(xs: seq<Option<real>>): Option<real> {
    var p := Present(xs);
    if |p| == 0 then None else Some(Sum(p) / |p| as real)
  }

  /** The value a missing cell contributes to a sum. */
  function OrZero(x: Option<real>): real {
    if x.Some? then x.value else 0.0
  }

  lemma {:induction false} PresentAppend(xs: seq<Option<real>>, ys: seq<Option<real>>)
    ensures Present(xs + ys) == Present(xs) + Present(ys)
  {
    if xs != [] {
      assert (xs + ys)[1..] == xs[1..] + ys;
      PresentAppend(xs[1..], ys);
    } else {
      assert xs + ys == ys;
    }
  }

  lemma {:induction false} SumAppend(a: seq<real>, b: seq<real>)
    ensures Sum(a + b) == Sum(a) + Sum(b)
  {
    if a != [] {
      assert (a + b)[1..] == a[1..] + b;
      SumAppend(a[1..], b);
    } else {
      assert a + b == b;
    }
  }

  /** The total of two columns laid end to end is the sum of their totals. */
  lemma TotalAppend(xs: seq<Option<real>>, ys: seq<Option<real>>)
    ensures Total(xs + ys) == Total(xs) + Total(ys)
  {
    PresentAppend(xs, ys);
    SumAppend(Present(xs), Present(ys));
  }

  /** The total is the sum of the column with every missing value read as 0. */
  lemma {:induction false} TotalCountsMissingAsZero(xs: seq<Option<real>>)
    ensures Total(xs) == Sum(seq(|xs|, i requires 0 <= i < |xs| => OrZero(xs[i])))
  {
    var z := seq(|xs|, i requires 0 <= i < |xs| => OrZero(xs[i]));
    if xs != [] {
      TotalCountsMissingAsZero(xs[1..]);
      assert z[1..] == seq(|xs[1..]|, i requires 0 <= i < |xs[1..]| => OrZero(xs[1..][i]));
    }
  }

  /** The mean is missing exactly when every value is missing. */
  lemma MeanMissing(xs: seq<Option<real>>)
    ensures Mean(xs).None? <==> forall i :: 0 <= i < |xs| ==> xs[i].None?
  {
  }

  lemma {:induction false} SumWithin(s: seq<real>, lo: real, hi: real)
    requires forall i :: 0 <= i < |s| ==> lo <= s[i] <= hi
    ensures lo * |s| as real <= Sum(s) <= hi * |s| as real
  {
    if s != [] {
      SumWithin(s[1..], lo, hi);
    }
  }

  lemma {:induction false} PresentFrom(xs: seq<Option<real>>, k: nat)
    requires k < |Present(xs)|
    ensures exists i :: 0 <= i < |xs| && xs[i] == Some(Present(xs)[k])
  {
    if xs[0].Some? && k == 0 {
      assert xs[0] == Some(Present(xs)[0]);
    } else {
      var k' := if xs[0].Some? then k - 1 else k;
      PresentFrom(xs[1..], k');
      var i :| 0 <= i < |xs[1..]| && xs[1..][i] == Some(Present(xs[1..])[k']);
      assert xs[i + 1] == Some(Present(xs)[k]);
    }
  }

  /** A quotient by a positive count whose dividend lies in [lo * n, hi * n] lies in [lo, hi]. */
  lemma QuotientWithin(total: real, n: real, lo: real, hi: real)
    requires n > 0.0
    requires lo * n <= total <= hi * n
    ensures lo <= total / n <= hi
  {
    var m := total / n;
    assert m * n == total;
    assert (m - lo) * n >= 0.0;
    assert (hi - m) * n >= 0.0;
  }

  /** The mean of present values that all lie in [lo, hi] lies in [lo, hi] too. */
  lemma MeanWithin(xs: seq<Option<real>>, lo: real, hi: real)
    requires forall i :: 0 <= i < |xs| && xs[i].Some? ==> lo <= xs[i].value <= hi
    requires Mean(xs).Some?
    ensures lo <= Mean(xs).value <= hi
  {
    var p := Present(xs);
    forall k | 0 <= k < |p| ensures lo <= p[k] <= hi {
      PresentFrom(xs, k);
    }
    SumWithin(p, lo, hi);
    QuotientWithin(Sum(p), |p| as real, lo, hi);
  }

  /** `g` applied to every element. */
  function MapSeq<A, B>(g: A -> B, s: seq<A>): (r: seq<B>)
    ensures |r| == |s|
    ensures forall i :: 0 <= i < |s| ==> r[i] == g(s[i])
  {
    seq(|s|, i requires 0 <= i < |s| => g(s[i]))
  }

  lemma MapSeqAppend<A, B>(g: A -> B, a: seq<A>, b: seq<A>)
    ensures MapSeq(g, a + b) == MapSeq(g, a) + MapSeq(g, b)
  {
    var l, r := MapSeq(g, a + b), MapSeq(g, a) + MapSeq(g, b);
    forall i | 0 <= i < |l| ensures l[i] == r[i] {
      if i < |a| { assert (a + b)[i] == a[i]; } else { assert (a + b)[i] == b[i - |a|]; }
    }
  }

  lemma SplitAt<A>(s: seq<A>, j: nat)
    requires j < |s|
    ensures s == s[..j] + [s[j]] + s[j + 1..]
  {
  }

  lemma PresentMapAppend<A>(g: A -> Option<real>, a: seq<A>, b: seq<A>)
    ensures multiset(Present(MapSeq(g, a + b))) == multiset(Present(MapSeq(g, a))) + multiset(Present(MapSeq(g, b)))
  {
    MapSeqAppend(g, a, b);
    PresentAppend(MapSeq(g, a), MapSeq(g, b));
  }

  /** Taking out the element at `j` takes its present result out of the present results. */
  lemma PresentMapRemove<A>(g: A -> Option<real>, s: seq<A>, j: nat)
    requires j < |s|
    ensures multiset(Present(MapSeq(g, s)))
         == multiset(Present(MapSeq(g, [s[j]]))) + multiset(Present(MapSeq(g, s[..j] + s[j + 1..])))
  {
    SplitAt(s, j);
    PresentMapAppend(g, s[..j] + [s[j]], s[j + 1..]);
    PresentMapAppend(g, s[..j], [s[j]]);
    PresentMapAppend(g, s[..j], s[j + 1..]);
  }

  lemma RemoveMatching<A>(a: seq<A>, b: seq<A>, j: nat)
    requires multiset(a) == multiset(b)
    requires 0 < |a| && j < |b| && b[j] == a[0]
    ensures multiset(a[1..]) == multiset(b[..j] + b[j + 1..])
  {
    SplitAt(b, j);
    SplitAt(a, 0);
    assert multiset(a[1..]) == multiset(a) - multiset{a[0]};
    assert multiset(b[..j] + b[j + 1..]) == multiset(b) - multiset{b[j]};
  }

  lemma PresentMapRemoveFirst<A>(g: A -> Option<real>, s: seq<A>)
    requires s != []
    ensures multiset(Present(MapSeq(g, s)))
         == multiset(Present(MapSeq(g, [s[0]]))) + multiset(Present(MapSeq(g, s[1..])))
  {
    assert [s[0]] + s[1..] == s;
    PresentMapAppend(g, [s[0]], s[1..]);
  }

  /**
   * Whatever each element is turned into, rearranging the elements only
   * rearranges the present results.
   */
  lemma {:induction false} PresentIgnoresOrder<A>(g: A -> Option<real>, a: seq<A>, b: seq<A>)
    requires multiset(a) == multiset(b)
    ensures multiset(Present(MapSeq(g, a))) == multiset(Present(MapSeq(g, b)))
  {
    assert |b| == |a| by { assert |multiset(a)| == |multiset(b)|; }
    if a != [] {
      assert a[0] in multiset(b) by { assert a[0] in multiset(a); }
      var j :| 0 <= j < |b| && b[j] == a[0];
      RemoveMatching(a, b, j);
      PresentIgnoresOrder(g, a[1..], b[..j] + b[j + 1..]);
      PresentMapRemoveFirst(g, a);
      PresentMapRemove(g, b, j);
    }
  }

  /** A sum is the element at `j` plus the sum of the others. */
  lemma SumRemove(s: seq<real>, j: nat)
    requires j < |s|
    ensures Sum(s) == s[j] + Sum(s[..j] + s[j + 1..])
  {
    SplitAt(s, j);
    SumAppend(s[..j] + [s[j]], s[j + 1..]);
    SumAppend(s[..j], [s[j]]);
    SumAppend(s[..j], s[j + 1..]);
    assert [s[j]][1..] == [];
  }

  /** Rearranging values leaves their sum as it is. */
  lemma {:induction false} SumIgnoresOrder(a: seq<real>, b: seq<real>)
    requires multiset(a) == multiset(b)
    ensures Sum(a) == Sum(b)
  {
    assert |b| == |a| by { assert |multiset(a)| == |multiset(b)|; }
    if a != [] {
      assert a[0] in multiset(b) by { assert a[0] in multiset(a); }
      var j :| 0 <= j < |b| && b[j] == a[0];
      RemoveMatching(a, b, j);
      SumIgnoresOrder(a[1..], b[..j] + b[j + 1..]);
      SumRemove(b, j);
    }
  }

  /** The mean and the total depend only on which values are present, not on their order. */
  lemma MeanIgnoresOrder(xs: seq<Option<real>>, ys: seq<Option<real>>)
    requires multiset(Present(xs)) == multiset(Present(ys))
    ensures Mean(xs) == Mean(ys)
    ensures Total(xs) == Total(ys)
  {
    assert |Present(xs)| == |Present(ys)| by {
      assert |multiset(Present(xs))| == |multiset(Present(ys))|;
    }
    SumIgnoresOrder(Present(xs), Present(ys));
  }

  /** Rearranging the rows a column is read from leaves its mean and its total as they are. */
  lemma ColumnIgnoresOrder<A>(g: A -> Option<real>, a: seq<A>, b: seq<A>)
    requires multiset(a) == multiset(b)
    ensures Mean(MapSeq(g, a)) == Mean(MapSeq(g, b))
    ensures Total(MapSeq(g, a)) == Total(MapSeq(g, b))
  {
    PresentIgnoresOrder(g, a, b);
    MeanIgnoresOrder(MapSeq(g, a), MapSeq(g, b));
  }

  // ---- Sorting and the median ----

  predicate Sorted(s: seq<real>) {
    forall i, j :: 0 <= i < j < |s| ==> s[i] <= s[j]
  }

  /** A lower bound of every value is a lower bound of any rearrangement of them. */
  lemma BoundPermuted(t: seq<real>, u: seq<real>, lo: real)
    requires multiset(t) == multiset(u)
    requires forall k :: 0 <= k < |u| ==> lo <= u[k]
    ensures forall k :: 0 <= k < |t| ==> lo <= t[k]
  {
    forall k | 0 <= k < |t| ensures lo <= t[k] {
      assert t[k] in multiset(u);
    }
  }

  lemma SortedCons(h: real, t: seq<real>)
    requires Sorted(t)
    requires forall k :: 0 <= k < |t| ==> h <= t[k]
    ensures Sorted([h] + t)
  {
    var r := [h] + t;
    forall i, j | 0 <= i < j < |r| ensures r[i] <= r[j] {
      assert r[j] == t[j - 1];
      if i > 0 {
        assert r[i] == t[i - 1];
      }
    }
  }

  /** Puts `x` into its place in a sorted sequence. */
  function Insert(x: real, s: seq<real>): (r: seq<real>)
    requires Sorted(s)
    ensures Sorted(r)
    ensures multiset(r) == multiset(s) + multiset{x}
    ensures |r| == |s| + 1
  {
    if s == [] || x <= s[0] then
      SortedCons(x, s);
      [x] + s
    else
      var t := Insert(x, s[1..]);
      assert s == [s[0]] + s[1..];
      var u := s[1..] + [x];
      assert multiset(t) == multiset(u);
      assert forall k :: 0 <= k < |u| ==> s[0] <= u[k] by {
        forall k | 0 <= k < |u| ensures s[0] <= u[k] {
          if k < |s| - 1 {
            assert u[k] == s[k + 1];
          }
        }
      }
      BoundPermuted(t, u, s[0]);
      SortedCons(s[0], t);
      [s[0]] + t
  }

  /** Insertion sort: an ascending rearrangement of `s`. */
  function Sort(s: seq<real>): (r: seq<real>)
    ensures Sorted(r)
    ensures multiset(r) == multiset(s)
    ensures |r| == |s|
  {
    if s == [] then []
    else
      assert s == [s[0]] + s[1..];
      Insert(s[0], Sort(s[1..]))
  }

  /** The first element of an ascending sequence is at most any of its values. */
  lemma SortedFirstLeast(a: seq<real>, x: real)
    requires Sorted(a)
    requires x in multiset(a)
    ensures a[0] <= x
  {
    var k :| 0 <= k < |a| && a[k] == x;
  }

  /** Dropping the first element of an ascending sequence removes that one value. */
  lemma SortedTail(a: seq<real>)
    requires Sorted(a) && a != []
    ensures Sorted(a[1..])
    ensures multiset(a[1..]) == multiset(a) - multiset{a[0]}
  {
    assert a == [a[0]] + a[1..];
    forall i, j | 0 <= i < j < |a| - 1 ensures a[1..][i] <= a[1..][j] {
      assert a[1..][i] == a[i + 1] && a[1..][j] == a[j + 1];
    }
  }

  /** Sequences with the same first element and the same rest are equal. */
  lemma SameHeadAndTail(a: seq<real>, b: seq<real>)
    requires a != [] && b != []
    requires a[0] == b[0] && a[1..] == b[1..]
    ensures a == b
  {
    assert a == [a[0]] + a[1..] && b == [b[0]] + b[1..];
  }

  /** Two ascending sequences holding the same values have the same first element. */
  lemma SortedSameFirst(a: seq<real>, b: seq<real>)
    requires Sorted(a) && Sorted(b) && a != [] && b != []
    requires multiset(a) == multiset(b)
    ensures a[0] == b[0]
  {
    assert a[0] in multiset(a) && b[0] in multiset(b);
    SortedFirstLeast(a, b[0]);
    SortedFirstLeast(b, a[0]);
  }

  /** Two ascending sequences holding the same values are equal. */
  lemma {:induction false} SortedUnique(a: seq<real>, b: seq<real>)
    requires Sorted(a) && Sorted(b)
    requires multiset(a) == multiset(b)
    ensures a == b
  {
    assert |b| == |a| by { assert |multiset(a)| == |multiset(b)|; }
    if a != [] {
      SortedSameFirst(a, b);
      SortedTail(a);
      SortedTail(b);
      SortedUnique(a[1..], b[1..]);
      SameHeadAndTail(a, b);
    }
  }

  /** pandas' median of a non-empty collection of values. */
  function Median(s: seq<real>): real
    requires |s| > 0
  {
    var r := Sort(s);
    var n := |r|;
    if n % 2 == 1 then r[n / 2] else (r[n / 2 - 1] + r[n / 2]) / 2.0
  }

  /** The median depends only on which values occur, not on their order. */
  lemma MedianIgnoresOrder(s: seq<real>, t: seq<real>)
    requires |s| > 0
    requires multiset(s) == multiset(t)
    ensures |t| > 0 && Median(s) == Median(t)
  {
    assert |t| == |s| by { assert |multiset(s)| == |multiset(t)|; }
    assert Sort(s) == Sort(t) by { SortedUnique(Sort(s), Sort(t)); }
  }

  /** The median of values that are all at most `c` is at most `c`. */
  lemma MedianAtMost(s: seq<real>, c: real)
    requires |s| > 0
    requires forall i :: 0 <= i < |s| ==> s[i] <= c
    ensures Median(s) <= c
  {
    var r := Sort(s);
    forall k | 0 <= k < |r| ensures r[k] <= c {
      assert r[k] in multiset(s);
    }
  }

  /** The median of values that all exceed `c` exceeds `c`. */
  lemma MedianAbove(s: seq<real>, c: real)
    requires |s| > 0
    requires forall i :: 0 <= i < |s| ==> s[i] > c
    ensures Median(s) > c
  {
    var r := Sort(s);
    forall k | 0 <= k < |r| ensures r[k] > c {
      assert r[k] in multiset(s);
    }
  }
}
