/**
 * pandas `groupby(keys).agg(...)` with its defaults (`sort=True`,
 * `dropna=True`): rows whose key is missing are dropped, the remaining rows
 * are split by key, and the result holds one row per distinct key in
 * ascending key order, each carrying the aggregate of its group. Also the
 * boolean-mask filter and the sums the aggregations are built from.
 */
module Grouping {
  import opened Cells
  import opened Stats

  /** An ordering the group keys can be sorted by. */
  ghost predicate StrictTotalOrder<K(!new)>(lt: (K, K) -> bool) {
    && (forall a :: !lt(a, a))
    && (forall a, b, c :: lt(a, b) && lt(b, c) ==> lt(a, c))
    && (forall a, b :: a != b ==> lt(a, b) || lt(b, a))
  }

  /** Every earlier element is below every later one, so no key repeats. */
  predicate Increasing<K(!new)>(lt: (K, K) -> bool, s: seq<K>) {
    forall i, j :: 0 <= i < j < |s| ==> lt(s[i], s[j])
  }

  predicate Distinct<K(==, !new)>(s: seq<K>) {
    forall i, j :: 0 <= i < j < |s| ==> s[i] != s[j]
  }

  lemma IncreasingDistinct<K(!new)>(lt: (K, K) -> bool, s: seq<K>)
    requires StrictTotalOrder(lt) && Increasing(lt, s)
    ensures Distinct(s)
  {
    forall i, j | 0 <= i < j < |s| ensures s[i] != s[j] {
      assert lt(s[i], s[j]);
    }
  }

  /** `k` put into its place in an ascending sequence, unless it is there already. */
  function InsertKey<K(==, !new)>(lt: (K, K) -> bool, k: K, ks: seq<K>): (r: seq<K>)
    ensures forall x :: x in r <==> x in ks || x == k
  {
    if ks == [] then [k]
    else if k == ks[0] then ks
    else if lt(k, ks[0]) then [k] + ks
    else
      var rest := InsertKey(lt, k, ks[1..]);
      assert forall x :: x in ks <==> x == ks[0] || x in ks[1..];
      [ks[0]] + rest
  }

  /** Inserting into an increasing sequence keeps it increasing. */
  lemma {:induction false} InsertKeyIncreasing<K(!new)>(lt: (K, K) -> bool, k: K, ks: seq<K>)
    requires StrictTotalOrder(lt) && Increasing(lt, ks)
    ensures Increasing(lt, InsertKey(lt, k, ks))
  {
    if ks == [] || k == ks[0] {
    } else if lt(k, ks[0]) {
      assert forall j :: 0 < j < |ks| ==> lt(ks[0], ks[j]);
    } else {
      var rest := InsertKey(lt, k, ks[1..]);
      InsertKeyIncreasing(lt, k, ks[1..]);
      assert lt(ks[0], k);
      forall x | x in rest ensures lt(ks[0], x) {
        if x != k {
          var j :| 0 <= j < |ks[1..]| && ks[1..][j] == x;
          assert x == ks[j + 1];
        }
      }
      var r := [ks[0]] + rest;
      forall i, j | 0 <= i < j < |r| ensures lt(r[i], r[j]) {
        if i == 0 {
          assert r[j] in rest;
        } else {
          assert r[i] == rest[i - 1] && r[j] == rest[j - 1];
        }
      }
    }
  }

  /**
   * The group keys: the distinct present keys of the rows, in ascending
   * order. A key is listed exactly when some row carries it.
   */
  function KeysOf<R(!new), K(==, !new)>(lt: (K, K) -> bool, key: R -> Option<K>, rows: seq<R>): (r: seq<K>)
    ensures forall i :: 0 <= i < |rows| && key(rows[i]).Some? ==> key(rows[i]).value in r
    ensures forall k :: k in r ==> exists i :: 0 <= i < |rows| && key(rows[i]) == Some(k)
  {
    if rows == [] then []
    else
      var init := rows[..|rows| - 1];
      var ks := KeysOf(lt, key, init);
      assert forall i :: 0 <= i < |init| ==> init[i] == rows[i];
      match key(rows[|rows| - 1])
      case None => ks
      case Some(k) => InsertKey(lt, k, ks)
  }

  /** Under a strict total order the group keys are increasing, so each is listed once. */
  lemma {:induction false} KeysIncreasing<R(!new), K(!new)>(lt: (K, K) -> bool, key: R -> Option<K>, rows: seq<R>)
    requires StrictTotalOrder(lt)
    ensures Increasing(lt, KeysOf(lt, key, rows))
    ensures Distinct(KeysOf(lt, key, rows))
  {
    if rows != [] {
      var init := rows[..|rows| - 1];
      KeysIncreasing(lt, key, init);
      if key(rows[|rows| - 1]).Some? {
        InsertKeyIncreasing(lt, key(rows[|rows| - 1]).value, KeysOf(lt, key, init));
      }
    }
    IncreasingDistinct(lt, KeysOf(lt, key, rows));
  }

  /** The first element of an increasing sequence is at or below every element. */
  lemma IncreasingFirst<K(!new)>(lt: (K, K) -> bool, s: seq<K>, x: K)
    requires Increasing(lt, s) && x in s
    ensures x == s[0] || lt(s[0], x)
  {
    var k :| 0 <= k < |s| && s[k] == x;
  }

  /** An increasing sequence without its first element: still increasing, and holding every other element. */
  lemma IncreasingTail<K(!new)>(lt: (K, K) -> bool, s: seq<K>)
    requires StrictTotalOrder(lt) && Increasing(lt, s) && s != []
    ensures Increasing(lt, s[1..])
    ensures forall x :: x in s[1..] <==> x in s && x != s[0]
  {
    var t := s[1..];
    forall i, j | 0 <= i < j < |t| ensures lt(t[i], t[j]) {
      assert t[i] == s[i + 1] && t[j] == s[j + 1];
    }
    forall x | x in t ensures x != s[0] {
      var k :| 0 <= k < |t| && t[k] == x;
      assert lt(s[0], s[k + 1]);
    }
    assert s == [s[0]] + t;
  }

  /** Two increasing sequences holding the same elements are equal: sorting leaves no choice. */
  lemma {:induction false} IncreasingUnique<K(!new)>(lt: (K, K) -> bool, s: seq<K>, t: seq<K>)
    requires StrictTotalOrder(lt) && Increasing(lt, s) && Increasing(lt, t)
    requires forall x :: x in s <==> x in t
    ensures s == t
  {
    if s != [] {
      assert s[0] in t;
    }
    if t != [] {
      assert t[0] in s;
    }
    if s != [] && t != [] {
      IncreasingFirst(lt, s, t[0]);
      IncreasingFirst(lt, t, s[0]);
      assert s[0] == t[0];
      IncreasingTail(lt, s);
      IncreasingTail(lt, t);
      IncreasingUnique(lt, s[1..], t[1..]);
      assert s == [s[0]] + s[1..] && t == [t[0]] + t[1..];
    }
  }

  /** Rearranging the rows leaves the group keys as they are. */
  lemma KeysIgnoreOrder<R(!new), K(!new)>(lt: (K, K) -> bool, key: R -> Option<K>, a: seq<R>, b: seq<R>)
    requires StrictTotalOrder(lt)
    requires multiset(a) == multiset(b)
    ensures KeysOf(lt, key, a) == KeysOf(lt, key, b)
  {
    var ka, kb := KeysOf(lt, key, a), KeysOf(lt, key, b);
    forall k | k in ka ensures k in kb {
      var i :| 0 <= i < |a| && key(a[i]) == Some(k);
      assert a[i] in multiset(b) by { assert a[i] in multiset(a); }
      var j :| 0 <= j < |b| && b[j] == a[i];
    }
    forall k | k in kb ensures k in ka {
      var j :| 0 <= j < |b| && key(b[j]) == Some(k);
      assert b[j] in multiset(a) by { assert b[j] in multiset(b); }
      var i :| 0 <= i < |a| && a[i] == b[j];
    }
    KeysIncreasing(lt, key, a);
    KeysIncreasing(lt, key, b);
    IncreasingUnique(lt, ka, kb);
  }

  /** A boolean mask: the rows that satisfy `p`, in their original order. */
  function Where<R(!new)>(p: R -> bool, rows: seq<R>): (r: seq<R>)
    ensures |r| <= |rows|
    ensures forall x :: x in r <==> x in rows && p(x)
  {
    if rows == [] then []
    else
      assert forall x :: x in rows <==> x == rows[0] || x in rows[1..];
      (if p(rows[0]) then [rows[0]] else []) + Where(p, rows[1..])
  }

  /** The mask of the rows carrying key `k`. */
  function HasKey<R(!new), K(==, !new)>(key: R -> Option<K>, k: K): R -> bool {
    x => key(x) == Some(k)
  }

  /** The group of key `k`: the rows carrying that key, in their original order. */
  function Select<R(!new), K(==, !new)>(key: R -> Option<K>, rows: seq<R>, k: K): (r: seq<R>)
    ensures forall x :: x in r <==> x in rows && key(x) == Some(k)
  {
    Where(HasKey(key, k), rows)
  }

  /** The output row of group `k`: the key next to the aggregate of its rows. */
  function GroupRow<R(!new), K(==, !new), S(!new)>(key: R -> Option<K>, agg: seq<R> -> S, rows: seq<R>): K -> (K, S) {
    k => (k, agg(Select(key, rows, k)))
  }

  /** `groupby(key).agg(agg)`: one `(key, aggregate)` row per group key, in key order. */
  function GroupBy<R(!new), K(==, !new), S(!new)>(lt: (K, K) -> bool, key: R -> Option<K>, agg: seq<R> -> S, rows: seq<R>): (r: seq<(K, S)>)
  {
    MapSeq(GroupRow(key, agg, rows), KeysOf(lt, key, rows))
  }

  /** A row whose key is present has its key's row in the grouped table. */
  lemma GroupByHasRow<R(!new), K(!new), S(!new)>(lt: (K, K) -> bool, key: R -> Option<K>, agg: seq<R> -> S, rows: seq<R>, i: nat)
    requires i < |rows| && key(rows[i]).Some?
    ensures var g := GroupBy(lt, key, agg, rows);
            exists j :: 0 <= j < |g| && g[j].0 == key(rows[i]).value
  {
    var ks := KeysOf(lt, key, rows);
    var j :| 0 <= j < |ks| && ks[j] == key(rows[i]).value;
    assert GroupBy(lt, key, agg, rows)[j].0 == ks[j];
  }

  /** The key of every row of the grouped table is carried by some row. */
  lemma GroupByRowFrom<R(!new), K(!new), S(!new)>(lt: (K, K) -> bool, key: R -> Option<K>, agg: seq<R> -> S, rows: seq<R>, j: nat)
    requires j < |GroupBy(lt, key, agg, rows)|
    ensures exists i :: 0 <= i < |rows| && key(rows[i]) == Some(GroupBy(lt, key, agg, rows)[j].0)
  {
    assert GroupBy(lt, key, agg, rows)[j].0 == KeysOf(lt, key, rows)[j];
  }

  /** Every present key has its row in the grouped table, and every row's key is present in some row. */
  lemma GroupByKeys<R(!new), K(!new), S(!new)>(lt: (K, K) -> bool, key: R -> Option<K>, agg: seq<R> -> S, rows: seq<R>)
    ensures var g := GroupBy(lt, key, agg, rows);
            && (forall i :: 0 <= i < |rows| && key(rows[i]).Some? ==> exists j :: 0 <= j < |g| && g[j].0 == key(rows[i]).value)
            && (forall j :: 0 <= j < |g| ==> exists i :: 0 <= i < |rows| && key(rows[i]) == Some(g[j].0))
  {
    var g := GroupBy(lt, key, agg, rows);
    forall i | 0 <= i < |rows| && key(rows[i]).Some?
      ensures exists j :: 0 <= j < |g| && g[j].0 == key(rows[i]).value
    {
      GroupByHasRow(lt, key, agg, rows, i);
    }
    forall j | 0 <= j < |g| ensures exists i :: 0 <= i < |rows| && key(rows[i]) == Some(g[j].0) {
      GroupByRowFrom(lt, key, agg, rows, j);
    }
  }

  /** The aggregate next to a key is that of exactly the rows carrying it, and that group is not empty. */
  lemma GroupByRows<R(!new), K(!new), S(!new)>(lt: (K, K) -> bool, key: R -> Option<K>, agg: seq<R> -> S, rows: seq<R>)
    ensures var g := GroupBy(lt, key, agg, rows);
            forall j :: 0 <= j < |g| ==> g[j].1 == agg(Select(key, rows, g[j].0)) && |Select(key, rows, g[j].0)| > 0
  {
    var ks := KeysOf(lt, key, rows);
    var g := GroupBy(lt, key, agg, rows);
    forall j | 0 <= j < |g| ensures |Select(key, rows, g[j].0)| > 0 {
      assert g[j].0 == ks[j];
      var i :| 0 <= i < |rows| && key(rows[i]) == Some(g[j].0);
      assert rows[i] in Select(key, rows, g[j].0);
    }
  }

  /** Under a strict total order the rows of the grouped table come in ascending key order. */
  lemma GroupByOrdered<R(!new), K(!new), S(!new)>(lt: (K, K) -> bool, key: R -> Option<K>, agg: seq<R> -> S, rows: seq<R>)
    requires StrictTotalOrder(lt)
    ensures var g := GroupBy(lt, key, agg, rows);
            forall i, j :: 0 <= i < j < |g| ==> lt(g[i].0, g[j].0)
  {
    KeysIncreasing(lt, key, rows);
  }

  /** The sum of `v` over the rows. */
  function SumBy<R(!new)>(v: R -> real, rows: seq<R>): real {
    if rows == [] then 0.0 else v(rows[0]) + SumBy(v, rows[1..])
  }

  lemma {:induction false} SumByAppend<R(!new)>(v: R -> real, a: seq<R>, b: seq<R>)
    ensures SumBy(v, a + b) == SumBy(v, a) + SumBy(v, b)
  {
    if a == [] {
      assert a + b == b;
    } else {
      assert (a + b)[1..] == a[1..] + b;
      SumByAppend(v, a[1..], b);
    }
  }

  lemma SumByOne<R(!new)>(v: R -> real, x: R)
    ensures SumBy(v, [x]) == v(x)
  {
    assert [x][1..] == [];
  }

  /** A sum is the element at `j` plus the sum of the others. */
  lemma SumByRemove<R(!new)>(v: R -> real, s: seq<R>, j: nat)
    requires j < |s|
    ensures SumBy(v, s) == v(s[j]) + SumBy(v, s[..j] + s[j + 1..])
  {
    SplitAt(s, j);
    SumByAppend(v, s[..j] + [s[j]], s[j + 1..]);
    SumByAppend(v, s[..j], [s[j]]);
    SumByAppend(v, s[..j], s[j + 1..]);
    SumByOne(v, s[j]);
  }

  /** Rearranging the rows leaves every column sum as it is. */
  lemma {:induction false} SumByIgnoresOrder<R(!new)>(v: R -> real, a: seq<R>, b: seq<R>)
    requires multiset(a) == multiset(b)
    ensures SumBy(v, a) == SumBy(v, b)
  {
    assert |b| == |a| by { assert |multiset(a)| == |multiset(b)|; }
    if a != [] {
      assert a[0] in multiset(b) by { assert a[0] in multiset(a); }
      var j :| 0 <= j < |b| && b[j] == a[0];
      RemoveMatching(a, b, j);
      SumByIgnoresOrder(v, a[1..], b[..j] + b[j + 1..]);
      SumByRemove(v, b, j);
    }
  }

  lemma {:induction false} SumByZero<R(!new)>(v: R -> real, rows: seq<R>)
    requires forall i :: 0 <= i < |rows| ==> v(rows[i]) == 0.0
    ensures SumBy(v, rows) == 0.0
  {
    if rows != [] {
      SumByZero(v, rows[1..]);
    }
  }

  /** Sums are linear: a column that is the sum of two columns sums to the sum of their sums. */
  lemma {:induction false} SumByAdd<R(!new)>(v: R -> real, w: R -> real, u: R -> real, rows: seq<R>)
    requires forall i :: 0 <= i < |rows| ==> u(rows[i]) == v(rows[i]) + w(rows[i])
    ensures SumBy(u, rows) == SumBy(v, rows) + SumBy(w, rows)
  {
    if rows != [] {
      SumByAdd(v, w, u, rows[1..]);
    }
  }

  /** Summing over a masked table is summing over the whole table with the masked-out rows counting 0. */
  lemma {:induction false} WhereSum<R(!new)>(p: R -> bool, v: R -> real, u: R -> real, rows: seq<R>)
    requires forall i :: 0 <= i < |rows| ==> u(rows[i]) == if p(rows[i]) then v(rows[i]) else 0.0
    ensures SumBy(v, Where(p, rows)) == SumBy(u, rows)
  {
    if rows != [] {
      WhereSum(p, v, u, rows[1..]);
      var h := if p(rows[0]) then [rows[0]] else [];
      SumByAppend(v, h, Where(p, rows[1..]));
    }
  }

  /** A mask on one row keeps it exactly when it passes. */
  lemma WhereOne<R(!new)>(p: R -> bool, x: R)
    ensures Where(p, [x]) == if p(x) then [x] else []
  {
    assert [x][1..] == [];
  }

  /** Masking a table is masking its two halves and putting them back in the same order. */
  lemma {:induction false} WhereAppend<R(!new)>(p: R -> bool, a: seq<R>, b: seq<R>)
    ensures Where(p, a + b) == Where(p, a) + Where(p, b)
  {
    if a == [] {
      assert a + b == b;
    } else {
      assert (a + b)[0] == a[0] && (a + b)[1..] == a[1..] + b;
      WhereAppend(p, a[1..], b);
    }
  }

  /** A mask keeps every copy of a passing row and no copy of a failing one. */
  lemma {:induction false} WhereCount<R(!new)>(p: R -> bool, rows: seq<R>, x: R)
    ensures multiset(Where(p, rows))[x] == if p(x) then multiset(rows)[x] else 0
  {
    if rows != [] {
      WhereCount(p, rows[1..], x);
      assert rows == [rows[0]] + rows[1..];
    }
  }

  /** Rearranging the rows only rearranges the rows a mask keeps. */
  lemma WhereIgnoresOrder<R(!new)>(p: R -> bool, a: seq<R>, b: seq<R>)
    requires multiset(a) == multiset(b)
    ensures multiset(Where(p, a)) == multiset(Where(p, b))
  {
    forall x ensures multiset(Where(p, a))[x] == multiset(Where(p, b))[x] {
      WhereCount(p, a, x);
      WhereCount(p, b, x);
    }
  }

  /** The key of a grouped table's row. */
  function RowKey<K, S>(row: (K, S)): K {
    row.0
  }

  /** The rows ascend by `key`. */
  predicate IncreasingBy<R(!new), K(!new)>(lt: (K, K) -> bool, key: R -> K, rows: seq<R>) {
    forall i, j :: 0 <= i < j < |rows| ==> lt(key(rows[i]), key(rows[j]))
  }

  /** In ascending rows, the first row is below every later one, and the later ones ascend. */
  lemma IncreasingByTail<R(!new), K(!new)>(lt: (K, K) -> bool, key: R -> K, rows: seq<R>)
    requires rows != [] && IncreasingBy(lt, key, rows)
    ensures IncreasingBy(lt, key, rows[1..])
    ensures forall y :: y in rows[1..] ==> lt(key(rows[0]), key(y))
  {
    var tail := rows[1..];
    forall i, j | 0 <= i < j < |tail| ensures lt(key(tail[i]), key(tail[j])) {
      assert tail[i] == rows[i + 1] && tail[j] == rows[j + 1];
    }
    forall y | y in tail ensures lt(key(rows[0]), key(y)) {
      var k :| 0 <= k < |tail| && tail[k] == y;
      assert tail[k] == rows[k + 1];
    }
  }

  /** A row below every row of an ascending table can be put in front of it. */
  lemma IncreasingByCons<R(!new), K(!new)>(lt: (K, K) -> bool, key: R -> K, x: R, rows: seq<R>)
    requires IncreasingBy(lt, key, rows)
    requires forall y :: y in rows ==> lt(key(x), key(y))
    ensures IncreasingBy(lt, key, [x] + rows)
  {
    var r := [x] + rows;
    forall i, j | 0 <= i < j < |r| ensures lt(key(r[i]), key(r[j])) {
      assert r[j] == rows[j - 1];
      if i > 0 {
        assert r[i] == rows[i - 1];
      }
    }
  }

  /** A mask keeps rows in their order: rows ascending by `key` stay ascending. */
  lemma {:induction false} WhereIncreasing<R(!new), K(!new)>(p: R -> bool, lt: (K, K) -> bool, key: R -> K, rows: seq<R>)
    requires IncreasingBy(lt, key, rows)
    ensures IncreasingBy(lt, key, Where(p, rows))
  {
    if rows != [] {
      IncreasingByTail(lt, key, rows);
      WhereIncreasing(p, lt, key, rows[1..]);
      if p(rows[0]) {
        IncreasingByCons(lt, key, rows[0], Where(p, rows[1..]));
      }
    }
  }

  /** A mask every row passes keeps the table as it is. */
  lemma {:induction false} WhereAll<R(!new)>(p: R -> bool, rows: seq<R>)
    requires forall i :: 0 <= i < |rows| ==> p(rows[i])
    ensures Where(p, rows) == rows
  {
    if rows != [] {
      WhereAll(p, rows[1..]);
    }
  }

  /** Masking rows built from keys is building rows from the keys that pass the corresponding mask. */
  lemma {:induction false} WhereMap<A(!new), B(!new)>(p: B -> bool, f: A -> B, q: A -> bool, s: seq<A>)
    requires forall i :: 0 <= i < |s| ==> q(s[i]) == p(f(s[i]))
    ensures Where(p, MapSeq(f, s)) == MapSeq(f, Where(q, s))
  {
    if s != [] {
      assert MapSeq(f, s)[1..] == MapSeq(f, s[1..]);
      WhereMap(p, f, q, s[1..]);
      var h := if q(s[0]) then [s[0]] else [];
      MapSeqAppend(f, h, Where(q, s[1..]));
    }
  }

  /** Summing over rows built from keys is summing over the keys. */
  lemma {:induction false} SumByMap<A(!new), B(!new)>(w: B -> real, f: A -> B, u: A -> real, s: seq<A>)
    requires forall i :: 0 <= i < |s| ==> u(s[i]) == w(f(s[i]))
    ensures SumBy(w, MapSeq(f, s)) == SumBy(u, s)
  {
    if s != [] {
      assert MapSeq(f, s)[1..] == MapSeq(f, s[1..]);
      SumByMap(w, f, u, s[1..]);
    }
  }

  /**
   * Summing the group sums of distinct keys that pass `sel` counts every row
   * whose key is among them and passes `sel`, each exactly once.
   */
  lemma {:induction false} GroupSums<R(!new), K(!new)>(key: R -> Option<K>, v: R -> real, rows: seq<R>, ks: seq<K>,
                                                      sel: K -> bool, a: K -> real, b: R -> real)
    requires Distinct(ks)
    requires forall i :: 0 <= i < |ks| ==> a(ks[i]) == if sel(ks[i]) then SumBy(v, Select(key, rows, ks[i])) else 0.0
    requires forall i :: 0 <= i < |rows| ==>
               b(rows[i]) == if key(rows[i]).Some? && key(rows[i]).value in ks && sel(key(rows[i]).value) then v(rows[i]) else 0.0
    ensures SumBy(a, ks) == SumBy(b, rows)
  {
    if ks == [] {
      SumByZero(b, rows);
    } else {
      var k0, rest := ks[0], ks[1..];
      assert Distinct(rest);
      var b' := x => if key(x).Some? && key(x).value in rest && sel(key(x).value) then v(x) else 0.0;
      GroupSums(key, v, rows, rest, sel, a, b');
      var here := x => if key(x) == Some(k0) && sel(k0) then v(x) else 0.0;
      assert a(k0) == SumBy(here, rows) by {
        if sel(k0) {
          WhereSum(HasKey(key, k0), v, here, rows);
        } else {
          SumByZero(here, rows);
        }
      }
      assert k0 !in rest;
      SumByAdd(here, b', b, rows);
    }
  }

  /**
   * Regrouping a grouped table by a coarser key and summing a column that is
   * itself a group sum gives the sum over all original rows of that coarse
   * key: no row is counted twice or lost.
   */
  lemma RegroupSum<R(!new), K(!new), J(!new), S(!new)>(lt: (K, K) -> bool, key: R -> Option<K>, agg: seq<R> -> S, rows: seq<R>,
                                                       proj: K -> J, pkey: ((K, S)) -> Option<J>, coarse: R -> Option<J>,
                                                       w: S -> real, pw: ((K, S)) -> real, v: R -> real, j: J)
    requires Distinct(KeysOf(lt, key, rows))
    requires forall p :: pkey(p) == Some(proj(p.0))
    requires forall x :: coarse(x) == if key(x).Some? then Some(proj(key(x).value)) else None
    requires forall p :: pw(p) == w(p.1)
    requires forall g :: w(agg(g)) == SumBy(v, g)
    ensures SumBy(pw, Select(pkey, GroupBy(lt, key, agg, rows), j)) == SumBy(v, Select(coarse, rows, j))
  {
    var ks := KeysOf(lt, key, rows);
    var f := GroupRow(key, agg, rows);
    var g := GroupBy(lt, key, agg, rows);
    var u := p => if HasKey(pkey, j)(p) then pw(p) else 0.0;
    WhereSum(HasKey(pkey, j), pw, u, g);
    var sel := k => proj(k) == j;
    var a := k => if sel(k) then SumBy(v, Select(key, rows, k)) else 0.0;
    forall i | 0 <= i < |ks| ensures a(ks[i]) == u(f(ks[i])) {
      var k := ks[i];
      var grp := Select(key, rows, k);
      assert f(k) == (k, agg(grp));
      assert pkey(f(k)) == Some(proj(k));
      assert pw(f(k)) == w(agg(grp)) == SumBy(v, grp);
    }
    SumByMap(u, f, a, ks);
    var b := x => if key(x).Some? && key(x).value in ks && sel(key(x).value) then v(x) else 0.0;
    GroupSums(key, v, rows, ks, sel, a, b);
    WhereSum(HasKey(coarse, j), v, b, rows);
  }

  /**
   * Regrouping a grouped table by a coarser key: the rows of coarse group `j`
   * are the finer groups whose keys map to `j`, in key order.
   */
  lemma RegroupRows<R(!new), K(!new), J(!new), S(!new)>(lt: (K, K) -> bool, key: R -> Option<K>, agg: seq<R> -> S, rows: seq<R>,
                                                        proj: K -> J, pkey: ((K, S)) -> Option<J>, sel: K -> bool, j: J)
    requires forall p :: pkey(p) == Some(proj(p.0))
    requires forall k :: sel(k) == (proj(k) == j)
    ensures Select(pkey, GroupBy(lt, key, agg, rows), j) == MapSeq(GroupRow(key, agg, rows), Where(sel, KeysOf(lt, key, rows)))
  {
    WhereMap(HasKey(pkey, j), GroupRow(key, agg, rows), sel, KeysOf(lt, key, rows));
  }

  /** `Series.sum()` over a column built from the rows is the row sum with missing values counting 0. */
  lemma {:induction false} TotalMap<A(!new)>(h: A -> Option<real>, u: A -> real, s: seq<A>)
    requires forall i :: 0 <= i < |s| ==> u(s[i]) == OrZero(h(s[i]))
    ensures Total(MapSeq(h, s)) == SumBy(u, s)
  {
    if s != [] {
      var xs := MapSeq(h, s);
      assert xs[1..] == MapSeq(h, s[1..]);
      TotalMap(h, u, s[1..]);
      TotalAppend([xs[0]], xs[1..]);
      assert [xs[0]] + xs[1..] == xs;
      assert Present([xs[0]]) == if xs[0].Some? then [xs[0].value] else [];
    }
  }

  /**
   * Rearranging the rows leaves the grouped table as it is, when each
   * aggregate depends only on which rows form its group.
   */
  lemma GroupByIgnoresOrder<R(!new), K(!new), S(!new)>(lt: (K, K) -> bool, key: R -> Option<K>, agg: seq<R> -> S,
                                                       a: seq<R>, b: seq<R>)
    requires StrictTotalOrder(lt)
    requires multiset(a) == multiset(b)
    requires forall g, h :: multiset(g) == multiset(h) ==> agg(g) == agg(h)
    ensures GroupBy(lt, key, agg, a) == GroupBy(lt, key, agg, b)
  {
    KeysIgnoreOrder(lt, key, a, b);
    var ks := KeysOf(lt, key, a);
    forall i | 0 <= i < |ks| ensures GroupRow(key, agg, a)(ks[i]) == GroupRow(key, agg, b)(ks[i]) {
      var ga, gb := Select(key, a, ks[i]), Select(key, b, ks[i]);
      assert multiset(ga) == multiset(gb) by {
        WhereIgnoresOrder(HasKey(key, ks[i]), a, b);
      }
      assert agg(ga) == agg(gb);
    }
  }

  /** A table with exactly two keys has their two groups as its rows. */
  lemma GroupByTwo<R(!new), K(!new), S(!new)>(lt: (K, K) -> bool, key: R -> Option<K>, agg: seq<R> -> S, rows: seq<R>,
                                               a: K, b: K, ga: seq<R>, gb: seq<R>)
    requires KeysOf(lt, key, rows) == [a, b]
    requires Select(key, rows, a) == ga && Select(key, rows, b) == gb
    ensures GroupBy(lt, key, agg, rows) == [(a, agg(ga)), (b, agg(gb))]
  {
    var g := GroupBy(lt, key, agg, rows);
    assert g[0] == GroupRow(key, agg, rows)(a);
    assert g[1] == GroupRow(key, agg, rows)(b);
  }
}
