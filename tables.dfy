/**
 * Database tables as finite maps from primary key to row, and the query
 * operators the controllers chain: rows in key order, Where, OrderBy (stable),
 * FirstOrDefault, Skip/Take paging.
 *
 * An unordered query returns rows in ascending primary-key order, the order a
 * clustered identity key gives; FirstOrDefault without OrderBy picks the row
 * with the smallest key.
 */
module Tables {
  import opened Common

  // ---------------------------------------------------------------- keys in order

  /** m is the smallest element of s. */
  predicate IsLeast(s: set<int>, m: int) {
    m in s && forall k :: k in s ==> m <= k
  }

  /** A set with no elements is the empty set (extensionality, spelled out). */
  lemma NoElementsIsEmpty(s: set<int>)
    requires forall y :: y !in s
    ensures s == {}
  {
    assert forall y :: y in s <==> y in {};
  }

  /** Some element of a non-empty set. */
  lemma PickElement(s: set<int>) returns (x: int)
    requires s != {}
    ensures x in s
  {
    if forall y :: y !in s {
      NoElementsIsEmpty(s);
      assert false;
    }
    x :| x in s;
  }

  lemma {:induction false} MinExists(s: set<int>)
    requires s != {}
    ensures exists m :: IsLeast(s, m)
    decreases |s|
  {
    var x := PickElement(s);
    var t := s - {x};
    if forall k :: k in s ==> x <= k {
      assert IsLeast(s, x);
    } else {
      var y :| y in s && y < x;
      assert y in t;
      MinExists(t);
      var m :| IsLeast(t, m);
      var w := if x < m then x else m;
      forall k | k in s ensures w <= k {
        if k != x { assert k in t; }
      }
      assert IsLeast(s, w);
    }
  }

  function MinOf(s: set<int>): (m: int)
    requires s != {}
    ensures IsLeast(s, m)
  {
    MinExists(s);
    var m :| IsLeast(s, m);
    m
  }

  ghost predicate StrictlyIncreasing(r: seq<int>) {
    forall i, j :: 0 <= i < j < |r| ==> r[i] < r[j]
  }

  /** The keys of a set in ascending order, each once. */
  function SortedKeys(s: set<int>): (r: seq<int>)
    ensures |r| == |s|
    ensures forall k :: k in r <==> k in s
    ensures forall i :: 0 <= i < |r| ==> r[i] in s
    ensures StrictlyIncreasing(r)
    decreases |s|
  {
    if s == {} then []
    else
      var m := MinOf(s);
      var rest := SortedKeys(s - {m});
      PrependLeast(m, rest);
      [m] + rest
  }

  lemma PrependLeast(m: int, rest: seq<int>)
    requires StrictlyIncreasing(rest)
    requires forall i :: 0 <= i < |rest| ==> m < rest[i]
    ensures StrictlyIncreasing([m] + rest)
  {
    var r := [m] + rest;
    forall i, j | 0 <= i < j < |r| ensures r[i] < r[j] {
      if i > 0 {
        assert r[i] == rest[i - 1] && r[j] == rest[j - 1];
      } else {
        assert r[j] == rest[j - 1];
      }
    }
  }

  ghost predicate StrictlyDecreasing(r: seq<int>) {
    forall i, j :: 0 <= i < j < |r| ==> r[i] > r[j]
  }

  function Reverse<T>(s: seq<T>): (r: seq<T>)
    ensures |r| == |s|
    ensures forall i :: 0 <= i < |s| ==> r[i] == s[|s| - 1 - i]
  {
    seq(|s|, i requires 0 <= i < |s| => s[|s| - 1 - i])
  }

  /** The keys of a table, largest first (OrderByDescending on the primary key). */
  function KeysDescending<V>(m: map<int, V>): (r: seq<int>)
    ensures |r| == |m|
    ensures forall i :: 0 <= i < |r| ==> r[i] in m
    ensures forall k :: k in m ==> k in r
    ensures StrictlyDecreasing(r)
  {
    var up := KeysAscending(m);
    ReverseOfIncreasing(up);
    Reverse(up)
  }

  /** Reversing an increasing list gives a decreasing list with the same elements. */
  lemma ReverseOfIncreasing(up: seq<int>)
    requires StrictlyIncreasing(up)
    ensures StrictlyDecreasing(Reverse(up))
    ensures forall k :: k in up ==> k in Reverse(up)
  {
    var r := Reverse(up);
    forall k | k in up ensures k in r {
      var j :| 0 <= j < |up| && up[j] == k;
      assert r[|up| - 1 - j] == k;
    }
  }

  /** The keys of a table, smallest first (OrderBy on the primary key). */
  function KeysAscending<V>(m: map<int, V>): (r: seq<int>)
    ensures |r| == |m|
    ensures forall i :: 0 <= i < |r| ==> r[i] in m
    ensures forall k :: k in m ==> k in r
    ensures StrictlyIncreasing(r)
  {
    SortedKeys(m.Keys)
  }

  /** FirstOrDefault(p): the key of the first row (smallest key) whose value satisfies p(_, a). */
  function FirstKeyWhere<V, A>(m: map<int, V>, p: (V, A) -> bool, a: A): (r: Option<int>)
    ensures r.Some? ==> r.value in m && p(m[r.value], a)
    ensures r.Some? ==> forall k :: k in m && p(m[k], a) ==> r.value <= k
    ensures r.None? <==> forall k :: k in m ==> !p(m[k], a)
  {
    var hits := set k | k in m && p(m[k], a);
    assert forall k :: k in m && p(m[k], a) ==> k in hits;
    if hits == {} then None else Some(MinOf(hits))
  }

  // ---------------------------------------------------------------- Where

  function Filter<T(!new)>(s: seq<T>, p: T -> bool): (r: seq<T>)
    ensures |r| <= |s|
    ensures forall x :: x in r <==> x in s && p(x)
    ensures forall x :: multiset(r)[x] == if p(x) then multiset(s)[x] else 0
  {
    if s == [] then []
    else
      var rest := Filter(s[1..], p);
      assert s == [s[0]] + s[1..];
      if p(s[0]) then [s[0]] + rest else rest
  }

  /*
   * Where on a table. The condition is a named predicate `p` with an argument
   * `a` (the query parameters it closes over), which keeps the proofs about
   * each query cheap.
   */

  /** The rows satisfying p(_, a) with their keys, smallest key first (an unordered query). */
  function RowsWhere<V, A>(m: map<int, V>, p: (V, A) -> bool, a: A): (r: seq<(int, V)>)
    ensures |r| <= |m|
    ensures forall i :: 0 <= i < |r| ==> r[i].0 in m && r[i].1 == m[r[i].0] && p(r[i].1, a)
    ensures forall k :: k in m && p(m[k], a) ==> (k, m[k]) in r
    ensures forall i, j :: 0 <= i < j < |r| ==> r[i].0 < r[j].0
  {
    var ks := KeysAscending(m);
    RowsAtComplete(ks, m, p, a);
    RowsAtOrdered(ks, m, p, a);
    RowsAt(ks, m, p, a)
  }

  /** The rows satisfying p(_, a) with their keys, largest key first (OrderByDescending on the key). */
  function RowsWhereDescending<V, A>(m: map<int, V>, p: (V, A) -> bool, a: A): (r: seq<(int, V)>)
    ensures |r| <= |m|
    ensures forall i :: 0 <= i < |r| ==> r[i].0 in m && r[i].1 == m[r[i].0] && p(r[i].1, a)
    ensures forall k :: k in m && p(m[k], a) ==> (k, m[k]) in r
    ensures forall i, j :: 0 <= i < j < |r| ==> r[i].0 > r[j].0
  {
    var ks := KeysDescending(m);
    RowsAtComplete(ks, m, p, a);
    RowsAtOrderedDescending(ks, m, p, a);
    RowsAt(ks, m, p, a)
  }

  /** The rows at keys ks that satisfy p(_, a), in the order of ks. */
  function RowsAt<V, A>(ks: seq<int>, m: map<int, V>, p: (V, A) -> bool, a: A): (r: seq<(int, V)>)
    requires forall i :: 0 <= i < |ks| ==> ks[i] in m
    ensures |r| <= |ks|
    ensures forall i :: 0 <= i < |r| ==> r[i].0 in m && r[i].1 == m[r[i].0] && p(r[i].1, a) && r[i].0 in ks
  {
    if ks == [] then []
    else
      var rest := RowsAt(ks[1..], m, p, a);
      if p(m[ks[0]], a) then [(ks[0], m[ks[0]])] + rest else rest
  }

  lemma {:induction false} RowsAtComplete<V, A>(ks: seq<int>, m: map<int, V>, p: (V, A) -> bool, a: A)
    requires forall i :: 0 <= i < |ks| ==> ks[i] in m
    ensures forall k :: k in m && k in ks && p(m[k], a) ==> (k, m[k]) in RowsAt(ks, m, p, a)
  {
    if ks != [] {
      RowsAtComplete(ks[1..], m, p, a);
      forall k | k in m && k in ks && p(m[k], a) ensures (k, m[k]) in RowsAt(ks, m, p, a) {
        if k != ks[0] {
          assert k in ks[1..];
        }
      }
    }
  }

  lemma {:induction false} RowsAtOrdered<V, A>(ks: seq<int>, m: map<int, V>, p: (V, A) -> bool, a: A)
    requires forall i :: 0 <= i < |ks| ==> ks[i] in m
    requires StrictlyIncreasing(ks)
    ensures forall i, j :: 0 <= i < j < |RowsAt(ks, m, p, a)| ==> RowsAt(ks, m, p, a)[i].0 < RowsAt(ks, m, p, a)[j].0
  {
    if ks != [] {
      RowsAtOrdered(ks[1..], m, p, a);
      var rest := RowsAt(ks[1..], m, p, a);
      forall i | 0 <= i < |rest| ensures ks[0] < rest[i].0 {
        var j :| 0 <= j < |ks[1..]| && ks[1..][j] == rest[i].0;
        assert ks[j + 1] == rest[i].0;
      }
    }
  }

  lemma {:induction false} RowsAtOrderedDescending<V, A>(ks: seq<int>, m: map<int, V>, p: (V, A) -> bool, a: A)
    requires forall i :: 0 <= i < |ks| ==> ks[i] in m
    requires StrictlyDecreasing(ks)
    ensures forall i, j :: 0 <= i < j < |RowsAt(ks, m, p, a)| ==> RowsAt(ks, m, p, a)[i].0 > RowsAt(ks, m, p, a)[j].0
  {
    if ks != [] {
      RowsAtOrderedDescending(ks[1..], m, p, a);
      var rest := RowsAt(ks[1..], m, p, a);
      forall i | 0 <= i < |rest| ensures ks[0] > rest[i].0 {
        var j :| 0 <= j < |ks[1..]| && ks[1..][j] == rest[i].0;
        assert ks[j + 1] == rest[i].0;
      }
    }
  }

  /** Splitting a condition into two disjoint cases splits the number of rows. */
  lemma {:induction false} RowsAtSplit<V, A>(ks: seq<int>, m: map<int, V>, p: (V, A) -> bool, a: A, b: A, c: A)
    requires forall i :: 0 <= i < |ks| ==> ks[i] in m
    requires forall k :: k in m ==> (p(m[k], a) <==> p(m[k], b) || p(m[k], c))
    requires forall k :: k in m ==> !(p(m[k], b) && p(m[k], c))
    ensures |RowsAt(ks, m, p, a)| == |RowsAt(ks, m, p, b)| + |RowsAt(ks, m, p, c)|
  {
    if ks != [] {
      RowsAtSplit(ks[1..], m, p, a, b, c);
    }
  }

  /** Select: applies f to every element, keeping the order. */
  function MapSeq<A, B>(s: seq<A>, f: A -> B): (r: seq<B>)
    ensures |r| == |s|
    ensures forall i :: 0 <= i < |s| ==> r[i] == f(s[i])
  {
    if s == [] then [] else [f(s[0])] + MapSeq(s[1..], f)
  }

  // ---------------------------------------------------------------- OrderBy

  /** `le` is total: any two rows can be compared. */
  ghost predicate Total<T(!new)>(le: (T, T) -> bool) {
    forall a, b :: le(a, b) || le(b, a)
  }

  ghost predicate Transitive<T(!new)>(le: (T, T) -> bool) {
    forall a, b, c :: le(a, b) && le(b, c) ==> le(a, c)
  }

  /** Every row is ordered with respect to the next one. */
  ghost predicate SortedAdjacent<T>(s: seq<T>, le: (T, T) -> bool) {
    forall i :: 0 <= i < |s| - 1 ==> le(s[i], s[i + 1])
  }

  /** Every row is ordered with respect to every later one. */
  ghost predicate Sorted<T>(s: seq<T>, le: (T, T) -> bool) {
    forall i, j :: 0 <= i < j < |s| ==> le(s[i], s[j])
  }

  /**
   * Places x before the first row it may precede. SortBy inserts the earlier rows of
   * its input into the sorted later ones, so x goes ahead of every row it ties with,
   * which keeps the sort stable.
   */
  function Insert<T>(x: T, s: seq<T>, le: (T, T) -> bool): (r: seq<T>)
    ensures |r| == |s| + 1
    ensures multiset(r) == multiset(s) + multiset{x}
  {
    if s == [] || le(x, s[0]) then [x] + s
    else
      assert s == [s[0]] + s[1..];
      [s[0]] + Insert(x, s[1..], le)
  }

  /** A stable sort (Enumerable.OrderBy) by the "may precede" relation `le`. */
  function SortBy<T>(s: seq<T>, le: (T, T) -> bool): (r: seq<T>)
    ensures |r| == |s|
    ensures multiset(r) == multiset(s)
  {
    if s == [] then []
    else
      assert s == [s[0]] + s[1..];
      Insert(s[0], SortBy(s[1..], le), le)
  }

  lemma {:induction false} InsertSorted<T(!new)>(x: T, s: seq<T>, le: (T, T) -> bool)
    requires Total(le)
    requires SortedAdjacent(s, le)
    ensures SortedAdjacent(Insert(x, s, le), le)
    ensures Insert(x, s, le)[0] == x || (s != [] && Insert(x, s, le)[0] == s[0])
  {
    if s == [] || le(x, s[0]) {
    } else {
      InsertSorted(x, s[1..], le);
      var rest := Insert(x, s[1..], le);
      assert le(s[0], x);
      assert rest[0] == x || (s[1..] != [] && rest[0] == s[1]);
      assert le(s[0], rest[0]);
    }
  }

  lemma {:induction false} SortBySorted<T(!new)>(s: seq<T>, le: (T, T) -> bool)
    requires Total(le)
    ensures SortedAdjacent(SortBy(s, le), le)
  {
    if s != [] {
      SortBySorted(s[1..], le);
      InsertSorted(s[0], SortBy(s[1..], le), le);
    }
  }

  lemma {:induction false} AdjacentToSorted<T(!new)>(s: seq<T>, le: (T, T) -> bool)
    requires Transitive(le)
    requires SortedAdjacent(s, le)
    ensures Sorted(s, le)
  {
    forall i, j | 0 <= i < j < |s| ensures le(s[i], s[j]) {
      var k := i;
      while k < j
        invariant i <= k <= j
        invariant k == i || le(s[i], s[k])
      {
        assert le(s[k], s[k + 1]);
        k := k + 1;
      }
    }
  }

  /** For a total, transitive order the stable sort orders every pair. */
  lemma SortByOrdersAllPairs<T(!new)>(s: seq<T>, le: (T, T) -> bool)
    requires Total(le) && Transitive(le)
    ensures Sorted(SortBy(s, le), le)
  {
    SortBySorted(s, le);
    AdjacentToSorted(SortBy(s, le), le);
  }

  /** Where keeps the relative order of the rows it keeps. */
  lemma {:induction false} FilterKeepsSorted<T(!new)>(s: seq<T>, p: T -> bool, le: (T, T) -> bool)
    requires Sorted(s, le)
    ensures Sorted(Filter(s, p), le)
  {
    if s != [] {
      var rest := Filter(s[1..], p);
      assert Sorted(s[1..], le) by {
        forall i, j | 0 <= i < j < |s[1..]| ensures le(s[1..][i], s[1..][j]) {
          assert s[1..][i] == s[i + 1] && s[1..][j] == s[j + 1];
        }
      }
      FilterKeepsSorted(s[1..], p, le);
      if p(s[0]) {
        var r := [s[0]] + rest;
        forall i, j | 0 <= i < j < |r| ensures le(r[i], r[j]) {
          if i == 0 {
            assert r[j] in s[1..];
            var k :| 0 <= k < |s[1..]| && s[1..][k] == r[j];
            assert le(s[0], s[k + 1]);
          } else {
            assert r[i] == rest[i - 1] && r[j] == rest[j - 1];
          }
        }
      }
    }
  }

  lemma {:induction false} RowsAtMonotone<V, A, B>(ks: seq<int>, m: map<int, V>, p: (V, A) -> bool, a: A,
                                                   q: (V, B) -> bool, b: B)
    requires forall i :: 0 <= i < |ks| ==> ks[i] in m
    requires forall i :: 0 <= i < |ks| ==> p(m[ks[i]], a) ==> q(m[ks[i]], b)
    ensures |RowsAt(ks, m, p, a)| <= |RowsAt(ks, m, q, b)|
  {
    if ks != [] {
      RowsAtMonotone(ks[1..], m, p, a, q, b);
    }
  }

  /** A weaker condition counts at least as many rows: Where(p).Count() <= Where(q).Count() when p implies q. */
  lemma RowsWhereMonotone<V, A, B>(m: map<int, V>, p: (V, A) -> bool, a: A, q: (V, B) -> bool, b: B)
    requires forall k :: k in m && p(m[k], a) ==> q(m[k], b)
    ensures |RowsWhere(m, p, a)| <= |RowsWhere(m, q, b)|
  {
    RowsAtMonotone(KeysAscending(m), m, p, a, q, b);
  }

  lemma {:induction false} RowsAtAll<V, A>(ks: seq<int>, m: map<int, V>, p: (V, A) -> bool, a: A)
    requires forall i :: 0 <= i < |ks| ==> ks[i] in m && p(m[ks[i]], a)
    ensures |RowsAt(ks, m, p, a)| == |ks|
  {
    if ks != [] {
      RowsAtAll(ks[1..], m, p, a);
    }
  }

  /** A condition every row passes keeps the whole table: Where(p).Count() == Count(). */
  lemma RowsWhereAll<V, A>(m: map<int, V>, p: (V, A) -> bool, a: A)
    requires forall k :: k in m ==> p(m[k], a)
    ensures |RowsWhere(m, p, a)| == |m|
  {
    RowsAtAll(KeysAscending(m), m, p, a);
  }

  /**
   * foreach (var row in rows) change(row): applies `f` to each listed row in
   * place, in list order; the rows must be stored rows with distinct keys.
   */
  method UpdateEach<V>(m: map<int, V>, rows: seq<(int, V)>, f: V -> V) returns (result: map<int, V>)
    requires forall j :: 0 <= j < |rows| ==> rows[j].0 in m && rows[j].1 == m[rows[j].0]
    requires forall i, j :: 0 <= i < j < |rows| ==> rows[i].0 < rows[j].0
    ensures result.Keys == m.Keys
    ensures forall j :: 0 <= j < |rows| ==> result[rows[j].0] == f(rows[j].1)
    ensures forall k :: k in m && (k, m[k]) !in rows ==> result[k] == m[k]
  {
    result := m;
    var i := 0;
    while i < |rows|
      invariant 0 <= i <= |rows|
      invariant result.Keys == m.Keys
      invariant forall j :: 0 <= j < i ==> result[rows[j].0] == f(rows[j].1)
      invariant forall j :: i <= j < |rows| ==> result[rows[j].0] == rows[j].1
      invariant forall k :: k in m && (k, m[k]) !in rows ==> result[k] == m[k]
    {
      var row := rows[i];
      result := result[row.0 := f(row.1)];
      i := i + 1;
    }
  }

  /** The table after `f` is applied to every row satisfying p(_, a). */
  function UpdatedWhere<V, A>(m: map<int, V>, p: (V, A) -> bool, a: A, f: V -> V): (r: map<int, V>)
    ensures r.Keys == m.Keys
  {
    map k | k in m :: if p(m[k], a) then f(m[k]) else m[k]
  }

  /** Where(p).ToList() then foreach ... change(row): changes exactly the rows satisfying p. */
  method UpdateWhere<V, A>(m: map<int, V>, p: (V, A) -> bool, a: A, f: V -> V) returns (result: map<int, V>, count: int)
    ensures result == UpdatedWhere(m, p, a, f) && result.Keys == m.Keys
    ensures count == |RowsWhere(m, p, a)|
  {
    var rows := RowsWhere(m, p, a);
    result := UpdateEach(m, rows, f);
    UpdatedEveryRow(m, p, a, f, rows, result);
    count := |rows|;
  }

  lemma UpdatedEveryRow<V, A>(m: map<int, V>, p: (V, A) -> bool, a: A, f: V -> V, rows: seq<(int, V)>, after: map<int, V>)
    requires forall k :: k in m && p(m[k], a) ==> (k, m[k]) in rows
    requires forall j :: 0 <= j < |rows| ==> p(rows[j].1, a)
    requires after.Keys == m.Keys
    requires forall j :: 0 <= j < |rows| ==> rows[j].0 in after && after[rows[j].0] == f(rows[j].1)
    requires forall k :: k in m && (k, m[k]) !in rows ==> after[k] == m[k]
    ensures after == UpdatedWhere(m, p, a, f)
  {
    forall k | k in m && p(m[k], a)
      ensures after[k] == f(m[k])
    {
      var j :| 0 <= j < |rows| && rows[j] == (k, m[k]);
    }
    forall k | k in m ensures after[k] == UpdatedWhere(m, p, a, f)[k] {
    }
  }

  /** RemoveRange(Where(p)): the table without the rows satisfying p(_, a). */
  function RemoveWhere<V, A>(m: map<int, V>, p: (V, A) -> bool, a: A): (r: map<int, V>)
    ensures forall k :: k in r <==> k in m && !p(m[k], a)
    ensures forall k :: k in r ==> r[k] == m[k]
  {
    map k | k in m && !p(m[k], a) :: m[k]
  }

  /** The keys of the rows satisfying p(_, a). */
  ghost function KeysWhere<V, A>(m: map<int, V>, p: (V, A) -> bool, a: A): set<int> {
    set k | k in m && p(m[k], a)
  }

  /** The keys of a list of rows. */
  ghost function RowKeys<V>(r: seq<(int, V)>): set<int> {
    set i | 0 <= i < |r| :: r[i].0
  }

  lemma {:induction false} DistinctKeysCount<V>(r: seq<(int, V)>)
    requires forall i, j :: 0 <= i < j < |r| ==> r[i].0 < r[j].0
    ensures |RowKeys(r)| == |r|
  {
    if r != [] {
      var tail := r[1..];
      DistinctKeysCount(tail);
      var rest := RowKeys(tail);
      var all := RowKeys(r);
      forall x | x in all ensures x in {r[0].0} + rest {
        var i :| 0 <= i < |r| && r[i].0 == x;
        if i > 0 {
          assert tail[i - 1].0 == x;
        }
      }
      forall x | x in rest ensures x in all {
        var i :| 0 <= i < |tail| && tail[i].0 == x;
        assert r[i + 1].0 == x;
      }
      assert all == {r[0].0} + rest;
      assert r[0].0 !in rest;
    }
  }

  /** Where(p).Count() is the number of keys whose row satisfies p. */
  lemma RowsWhereCount<V, A>(m: map<int, V>, p: (V, A) -> bool, a: A)
    ensures |RowsWhere(m, p, a)| == |KeysWhere(m, p, a)|
  {
    DistinctKeysCount(RowsWhere(m, p, a));
    RowKeysOfRowsWhere(m, p, a);
  }

  /** The keys Where(p) lists are exactly the keys whose row satisfies p. */
  lemma RowKeysOfRowsWhere<V, A>(m: map<int, V>, p: (V, A) -> bool, a: A)
    ensures RowKeys(RowsWhere(m, p, a)) == KeysWhere(m, p, a)
  {
    PassingKeysListed(m, p, a);
    ListedKeysPass(m, p, a);
  }

  lemma PassingKeysListed<V, A>(m: map<int, V>, p: (V, A) -> bool, a: A)
    ensures KeysWhere(m, p, a) <= RowKeys(RowsWhere(m, p, a))
  {
    var r := RowsWhere(m, p, a);
    forall k | k in KeysWhere(m, p, a) ensures k in RowKeys(r) {
      InRowsWhere(m, p, a, (k, m[k]));
      var i :| 0 <= i < |r| && r[i] == (k, m[k]);
      assert r[i].0 == k;
    }
  }

  lemma ListedKeysPass<V, A>(m: map<int, V>, p: (V, A) -> bool, a: A)
    ensures RowKeys(RowsWhere(m, p, a)) <= KeysWhere(m, p, a)
  {
    var r := RowsWhere(m, p, a);
    forall k | k in RowKeys(r) ensures k in KeysWhere(m, p, a) {
      var i :| 0 <= i < |r| && r[i].0 == k;
    }
  }

  /** Reversing a list of rows with decreasing keys gives increasing keys and the same key set. */
  lemma ReversedRows<V>(r: seq<(int, V)>)
    requires forall i, j :: 0 <= i < j < |r| ==> r[i].0 > r[j].0
    ensures forall i, j :: 0 <= i < j < |Reverse(r)| ==> Reverse(r)[i].0 < Reverse(r)[j].0
    ensures RowKeys(Reverse(r)) == RowKeys(r)
  {
    var up := Reverse(r);
    forall k | k in RowKeys(r) ensures k in RowKeys(up) {
      var i :| 0 <= i < |r| && r[i].0 == k;
      assert up[|r| - 1 - i] == r[i];
    }
    forall k | k in RowKeys(up) ensures k in RowKeys(r) {
      var i :| 0 <= i < |up| && up[i].0 == k;
    }
  }

  /** Rows with decreasing keys have as many distinct keys as rows. */
  lemma DescendingKeysCount<V>(r: seq<(int, V)>)
    requires forall i, j :: 0 <= i < j < |r| ==> r[i].0 > r[j].0
    ensures |RowKeys(r)| == |r|
  {
    ReversedRows(r);
    DistinctKeysCount(Reverse(r));
  }

  /** The descending query lists exactly the keys satisfying p. */
  lemma DescendingRowKeys<V, A>(m: map<int, V>, p: (V, A) -> bool, a: A)
    ensures RowKeys(RowsWhereDescending(m, p, a)) == KeysWhere(m, p, a)
  {
    var r := RowsWhereDescending(m, p, a);
    forall k | k in KeysWhere(m, p, a) ensures k in RowKeys(r) {
      var i :| 0 <= i < |r| && r[i] == (k, m[k]);
    }
  }

  /** The descending query holds as many rows as there are keys satisfying p. */
  lemma RowsWhereDescendingCount<V, A>(m: map<int, V>, p: (V, A) -> bool, a: A)
    ensures |RowsWhereDescending(m, p, a)| == |KeysWhere(m, p, a)|
  {
    DescendingKeysCount(RowsWhereDescending(m, p, a));
    DescendingRowKeys(m, p, a);
  }

  /** Adding a row under a fresh key raises Where(p).Count() by one exactly when the row satisfies p. */
  lemma RowsWhereInsert<V, A>(m: map<int, V>, p: (V, A) -> bool, a: A, k: int, v: V)
    requires k !in m
    ensures |RowsWhere(m[k := v], p, a)| == |RowsWhere(m, p, a)| + (if p(v, a) then 1 else 0)
  {
    RowsWhereCount(m, p, a);
    RowsWhereCount(m[k := v], p, a);
    KeysWhereInsert(m, p, a, k, v);
  }

  lemma KeysWhereInsert<V, A>(m: map<int, V>, p: (V, A) -> bool, a: A, k: int, v: V)
    requires k !in m
    ensures KeysWhere(m[k := v], p, a) == KeysWhere(m, p, a) + (if p(v, a) then {k} else {})
    ensures k !in KeysWhere(m, p, a)
  {
  }

  // ---------------------------------------------------------------- Sum

  /** The sum of f over the rows at keys ks that satisfy p(_, a). */
  function SumAt<V, A>(ks: seq<int>, m: map<int, V>, p: (V, A) -> bool, a: A, f: V -> int): int
    requires forall i :: 0 <= i < |ks| ==> ks[i] in m
  {
    if ks == [] then 0
    else (if p(m[ks[0]], a) then f(m[ks[0]]) else 0) + SumAt(ks[1..], m, p, a, f)
  }

  /** Where(p).Sum(f), with `?? 0` for the empty selection (SumAsync of no rows is null). */
  function SumWhere<V, A>(m: map<int, V>, p: (V, A) -> bool, a: A, f: V -> int): int {
    SumAt(KeysAscending(m), m, p, a, f)
  }

  lemma {:induction false} SumAtMonotone<V, A, B>(ks: seq<int>, m: map<int, V>, p: (V, A) -> bool, a: A,
                                                  q: (V, B) -> bool, b: B, f: V -> int)
    requires forall i :: 0 <= i < |ks| ==> ks[i] in m
    requires forall i :: 0 <= i < |ks| ==> p(m[ks[i]], a) ==> q(m[ks[i]], b)
    requires forall i :: 0 <= i < |ks| ==> q(m[ks[i]], b) ==> f(m[ks[i]]) >= 0
    ensures SumAt(ks, m, p, a, f) <= SumAt(ks, m, q, b, f)
  {
    if ks != [] {
      SumAtMonotone(ks[1..], m, p, a, q, b, f);
    }
  }

  /** A weaker condition sums at least as much when the rows it adds count non-negatively. */
  lemma SumWhereMonotone<V, A, B>(m: map<int, V>, p: (V, A) -> bool, a: A, q: (V, B) -> bool, b: B, f: V -> int)
    requires forall k :: k in m && p(m[k], a) ==> q(m[k], b)
    requires forall k :: k in m && q(m[k], b) ==> f(m[k]) >= 0
    ensures SumWhere(m, p, a, f) <= SumWhere(m, q, b, f)
  {
    SumAtMonotone(KeysAscending(m), m, p, a, q, b, f);
  }

  lemma {:induction false} SumAtNone<V, A>(ks: seq<int>, m: map<int, V>, p: (V, A) -> bool, a: A, f: V -> int)
    requires forall i :: 0 <= i < |ks| ==> ks[i] in m && !p(m[ks[i]], a)
    ensures SumAt(ks, m, p, a, f) == 0
  {
    if ks != [] {
      SumAtNone(ks[1..], m, p, a, f);
    }
  }

  /** No passing row, nothing summed: the `?? 0` case. */
  lemma SumWhereNone<V, A>(m: map<int, V>, p: (V, A) -> bool, a: A, f: V -> int)
    requires forall k :: k in m ==> !p(m[k], a)
    ensures SumWhere(m, p, a, f) == 0
  {
    SumAtNone(KeysAscending(m), m, p, a, f);
  }

  /** Count() == 0 over a condition means Sum(f) == 0 over the same condition. */
  lemma CountZeroSumZero<V, A>(m: map<int, V>, p: (V, A) -> bool, a: A, f: V -> int)
    requires |RowsWhere(m, p, a)| == 0
    ensures SumWhere(m, p, a, f) == 0
  {
    forall k | k in m ensures !p(m[k], a) {
    }
    SumWhereNone(m, p, a, f);
  }

  /** The sum of f over the rows with the keys in S, independent of any order. */
  ghost function SumOver<V>(S: set<int>, m: map<int, V>, f: V -> int): int
    requires S <= m.Keys
    decreases |S|
  {
    if S == {} then 0
    else
      var k := MinOf(S);
      f(m[k]) + SumOver(S - {k}, m, f)
  }

  /** The keys of ks whose rows satisfy p(_, a). */
  ghost function PassingKeys<V, A>(ks: seq<int>, m: map<int, V>, p: (V, A) -> bool, a: A): set<int> {
    set k | k in ks && k in m && p(m[k], a)
  }

  lemma {:induction false} SumAtIsSumOver<V, A>(ks: seq<int>, m: map<int, V>, p: (V, A) -> bool, a: A, f: V -> int)
    requires forall i :: 0 <= i < |ks| ==> ks[i] in m
    requires StrictlyIncreasing(ks)
    ensures SumAt(ks, m, p, a, f) == SumOver(PassingKeys(ks, m, p, a), m, f)
  {
    if ks == [] {
      assert PassingKeys(ks, m, p, a) == {};
    } else {
      PassingKeysFirst(ks, m, p, a);
      assert forall i :: 0 <= i < |ks[1..]| ==> ks[1..][i] in m by {
        forall i | 0 <= i < |ks[1..]| ensures ks[1..][i] in m {
          assert ks[1..][i] == ks[i + 1];
        }
      }
      SumAtIsSumOver(ks[1..], m, p, a, f);
      var T := PassingKeys(ks[1..], m, p, a);
      if p(m[ks[0]], a) {
        SumOverAddLeast(ks[0], T, m, f);
        assert PassingKeys(ks, m, p, a) == T + {ks[0]};
      } else {
        assert PassingKeys(ks, m, p, a) == T;
      }
    }
  }

  /** The passing keys of a list are those of its tail, plus its head when that passes; all larger than the head. */
  lemma PassingKeysFirst<V, A>(ks: seq<int>, m: map<int, V>, p: (V, A) -> bool, a: A)
    requires ks != [] && StrictlyIncreasing(ks)
    ensures StrictlyIncreasing(ks[1..])
    ensures PassingKeys(ks, m, p, a)
         == PassingKeys(ks[1..], m, p, a) + (if ks[0] in m && p(m[ks[0]], a) then {ks[0]} else {})
    ensures forall k :: k in PassingKeys(ks[1..], m, p, a) ==> ks[0] < k
  {
    var rest := ks[1..];
    forall i, j | 0 <= i < j < |rest| ensures rest[i] < rest[j] {
      assert rest[i] == ks[i + 1] && rest[j] == ks[j + 1];
    }
    forall k | k in rest ensures ks[0] < k {
      var i :| 0 <= i < |rest| && rest[i] == k;
      assert ks[i + 1] == k;
    }
    assert ks == [ks[0]] + rest;
  }

  /** Adding a key below every key of T adds its row's f to the sum. */
  lemma SumOverAddLeast<V>(x: int, T: set<int>, m: map<int, V>, f: V -> int)
    requires x in m && T <= m.Keys
    requires forall k :: k in T ==> x < k
    ensures SumOver(T + {x}, m, f) == f(m[x]) + SumOver(T, m, f)
  {
    var S := T + {x};
    assert IsLeast(S, x);
    assert MinOf(S) == x;
    assert S - {x} == T;
  }

  /** Where(p).Sum(f) adds f over exactly the passing rows, whatever their order. */
  lemma SumWhereIsSumOver<V, A>(m: map<int, V>, p: (V, A) -> bool, a: A, f: V -> int)
    ensures SumWhere(m, p, a, f) == SumOver(KeysWhere(m, p, a), m, f)
  {
    var ks := KeysAscending(m);
    SumAtIsSumOver(ks, m, p, a, f);
    assert PassingKeys(ks, m, p, a) == KeysWhere(m, p, a);
  }

  /** Adding any key not yet in S adds its row's f to the sum. */
  lemma {:induction false} SumOverInsert<V>(x: int, T: set<int>, m: map<int, V>, f: V -> int)
    requires x in m && T <= m.Keys && x !in T
    ensures SumOver(T + {x}, m, f) == f(m[x]) + SumOver(T, m, f)
    decreases |T|
  {
    var S := T + {x};
    var k := MinOf(S);
    if k == x {
      assert S - {x} == T;
    } else {
      assert k in T && IsLeast(T, k);
      assert MinOf(T) == k;
      assert S - {k} == (T - {k}) + {x};
      SumOverInsert(x, T - {k}, m, f);
    }
  }

  lemma {:induction false} SumOverAgree<V>(S: set<int>, m: map<int, V>, m': map<int, V>, f: V -> int)
    requires S <= m.Keys && S <= m'.Keys
    requires forall k :: k in S ==> f(m[k]) == f(m'[k])
    ensures SumOver(S, m, f) == SumOver(S, m', f)
    decreases |S|
  {
    if S != {} {
      var k := MinOf(S);
      SumOverAgree(S - {k}, m, m', f);
    }
  }

  /**
   * Storing a row that fails the condition, over a missing key or over a row that
   * also fails it, changes neither Where(p).Count() nor Where(p).Sum(f).
   */
  lemma StoreFailingRow<V, A>(m: map<int, V>, p: (V, A) -> bool, a: A, f: V -> int, k: int, v: V)
    requires !p(v, a)
    requires k in m ==> !p(m[k], a)
    ensures KeysWhere(m[k := v], p, a) == KeysWhere(m, p, a)
    ensures |RowsWhere(m[k := v], p, a)| == |RowsWhere(m, p, a)|
    ensures SumWhere(m[k := v], p, a, f) == SumWhere(m, p, a, f)
  {
    var m' := m[k := v];
    assert KeysWhere(m', p, a) == KeysWhere(m, p, a);
    RowsWhereCount(m, p, a);
    RowsWhereCount(m', p, a);
    SumWhereIsSumOver(m, p, a, f);
    SumWhereIsSumOver(m', p, a, f);
    SumOverAgree(KeysWhere(m, p, a), m, m', f);
  }

  /** Where(p) then OrderBy(le): the passing rows, in table order, stably sorted by `le`. */
  function OrderedRowsWhere<V, A>(m: map<int, V>, p: (V, A) -> bool, a: A, le: ((int, V), (int, V)) -> bool)
    : (r: seq<(int, V)>)
    ensures |r| <= |m|
    ensures multiset(r) == multiset(RowsWhere(m, p, a))
    ensures |r| == |KeysWhere(m, p, a)|
  {
    RowsWhereCount(m, p, a);
    SortBy(RowsWhere(m, p, a), le)
  }

  /** A row is in the ordered selection exactly when it is a stored row that passes the condition. */
  lemma InOrderedRows<V, A>(m: map<int, V>, p: (V, A) -> bool, a: A, le: ((int, V), (int, V)) -> bool, x: (int, V))
    ensures x in OrderedRowsWhere(m, p, a, le) <==> x.0 in m && x.1 == m[x.0] && p(x.1, a)
  {
    SameElements(OrderedRowsWhere(m, p, a, le), RowsWhere(m, p, a), x);
    InRowsWhere(m, p, a, x);
  }

  /** Lists that are permutations of each other hold the same elements. */
  lemma SameElements<T>(s: seq<T>, t: seq<T>, x: T)
    requires multiset(s) == multiset(t)
    ensures x in s <==> x in t
  {
    assert x in s <==> x in multiset(s);
    assert x in t <==> x in multiset(t);
  }

  /** A row is in Where(p) exactly when it is a stored row that passes the condition. */
  lemma InRowsWhere<V, A>(m: map<int, V>, p: (V, A) -> bool, a: A, x: (int, V))
    ensures x in RowsWhere(m, p, a) <==> x.0 in m && x.1 == m[x.0] && p(x.1, a)
  {
    var rows := RowsWhere(m, p, a);
    if x in rows {
      var i :| 0 <= i < |rows| && rows[i] == x;
    }
  }

  /** The position of a passing row in the ordered selection. */
  lemma PositionInOrderedRows<V, A>(m: map<int, V>, p: (V, A) -> bool, a: A, le: ((int, V), (int, V)) -> bool, k: int)
    returns (i: int)
    requires k in m && p(m[k], a)
    ensures 0 <= i < |OrderedRowsWhere(m, p, a, le)| && OrderedRowsWhere(m, p, a, le)[i] == (k, m[k])
  {
    InOrderedRows(m, p, a, le, (k, m[k]));
    i :| 0 <= i < |OrderedRowsWhere(m, p, a, le)| && OrderedRowsWhere(m, p, a, le)[i] == (k, m[k]);
  }

  /** For a total, transitive `le` the ordered selection is sorted by it. */
  lemma OrderedRowsSorted<V(!new), A>(m: map<int, V>, p: (V, A) -> bool, a: A, le: ((int, V), (int, V)) -> bool)
    requires Total(le) && Transitive(le)
    ensures Sorted(OrderedRowsWhere(m, p, a, le), le)
  {
    SortByOrdersAllPairs(RowsWhere(m, p, a), le);
  }

  /** Of two rows, the later one may precede the earlier one under `le` only when its key is larger. */
  ghost predicate TiesInKeyOrder<V>(s: seq<(int, V)>, le: ((int, V), (int, V)) -> bool) {
    forall i, j :: 0 <= i < j < |s| && le(s[j], s[i]) ==> s[i].0 < s[j].0
  }

  /** A row may go in front when every row that may precede it has a larger key. */
  lemma TiesPrepend<V>(x: (int, V), s: seq<(int, V)>, le: ((int, V), (int, V)) -> bool)
    requires TiesInKeyOrder(s, le)
    requires forall j :: 0 <= j < |s| && le(s[j], x) ==> x.0 < s[j].0
    ensures TiesInKeyOrder([x] + s, le)
  {
    var r := [x] + s;
    forall i, j | 0 <= i < j < |r| && le(r[j], r[i]) ensures r[i].0 < r[j].0 {
      if i > 0 {
        assert r[i] == s[i - 1];
      }
      assert r[j] == s[j - 1];
    }
  }

  lemma TiesInKeyOrderTail<V>(s: seq<(int, V)>, le: ((int, V), (int, V)) -> bool)
    requires s != [] && TiesInKeyOrder(s, le)
    ensures TiesInKeyOrder(s[1..], le)
  {
    var t := s[1..];
    forall i, j | 0 <= i < j < |t| && le(t[j], t[i]) ensures t[i].0 < t[j].0 {
      assert t[i] == s[i + 1] && t[j] == s[j + 1];
    }
  }

  /** Every row of Insert(x, s) is x or a row of s. */
  lemma InInsert<T>(x: T, s: seq<T>, le: (T, T) -> bool, y: T)
    requires y in Insert(x, s, le)
    ensures y == x || y in s
  {
    assert y in multiset(Insert(x, s, le));
    assert y in multiset(s) + multiset{x};
  }

  lemma {:induction false} InsertKeepsTieOrder<V>(x: (int, V), s: seq<(int, V)>, le: ((int, V), (int, V)) -> bool)
    requires TiesInKeyOrder(s, le)
    requires forall y :: y in s ==> x.0 < y.0
    ensures TiesInKeyOrder(Insert(x, s, le), le)
  {
    if s == [] || le(x, s[0]) {
      forall j | 0 <= j < |s| && le(s[j], x) ensures x.0 < s[j].0 {
        assert s[j] in s;
      }
      TiesPrepend(x, s, le);
    } else {
      var t := Insert(x, s[1..], le);
      TiesInKeyOrderTail(s, le);
      forall y | y in s[1..] ensures x.0 < y.0 {
        assert y in s;
      }
      InsertKeepsTieOrder(x, s[1..], le);
      forall j | 0 <= j < |t| && le(t[j], s[0]) ensures s[0].0 < t[j].0 {
        InInsert(x, s[1..], le, t[j]);
        var k :| 0 <= k < |s[1..]| && s[1..][k] == t[j];
        assert s[k + 1] == t[j];
      }
      TiesPrepend(s[0], t, le);
    }
  }

  /** SortBy is stable: on rows with ascending keys, rows that tie keep their key order. */
  lemma {:induction false} SortByKeepsTieOrder<V>(s: seq<(int, V)>, le: ((int, V), (int, V)) -> bool)
    requires forall i, j :: 0 <= i < j < |s| ==> s[i].0 < s[j].0
    ensures TiesInKeyOrder(SortBy(s, le), le)
  {
    if s != [] {
      var rest := SortBy(s[1..], le);
      assert forall i, j :: 0 <= i < j < |s[1..]| ==> s[1..][i].0 < s[1..][j].0 by {
        forall i, j | 0 <= i < j < |s[1..]| ensures s[1..][i].0 < s[1..][j].0 {
          assert s[1..][i] == s[i + 1] && s[1..][j] == s[j + 1];
        }
      }
      SortByKeepsTieOrder(s[1..], le);
      forall y | y in rest ensures s[0].0 < y.0 {
        assert y in multiset(rest);
        assert y in multiset(s[1..]);
        var k :| 0 <= k < |s[1..]| && s[1..][k] == y;
        assert s[k + 1] == y;
      }
      InsertKeepsTieOrder(s[0], rest, le);
    }
  }

  /**
   * Where(p) then OrderBy(le) is stable: rows that tie under `le` come out in ascending
   * key order, the order the table returns them in.
   */
  lemma OrderedRowsTieOrder<V, A>(m: map<int, V>, p: (V, A) -> bool, a: A, le: ((int, V), (int, V)) -> bool)
    ensures TiesInKeyOrder(OrderedRowsWhere(m, p, a, le), le)
  {
    SortByKeepsTieOrder(RowsWhere(m, p, a), le);
  }

  // ---------------------------------------------------------------- Skip / Take

  function Max(a: int, b: int): int { if a < b then b else a }
  function Min(a: int, b: int): int { if a < b then a else b }

  /** Skip(n): a negative count skips nothing, a count past the end leaves nothing. */
  function Skip<T>(s: seq<T>, n: int): (r: seq<T>)
    ensures |r| == |s| - Min(Max(n, 0), |s|)
    ensures forall i :: 0 <= i < |r| ==> r[i] == s[Min(Max(n, 0), |s|) + i]
  {
    s[Min(Max(n, 0), |s|)..]
  }

  /** Take(n): a negative count takes nothing. */
  function Take<T>(s: seq<T>, n: int): (r: seq<T>)
    ensures |r| == Min(Max(n, 0), |s|)
    ensures forall i :: 0 <= i < |r| ==> r[i] == s[i]
  {
    s[..Min(Max(n, 0), |s|)]
  }

  /** Skip((pageNumber - 1) * pageSize).Take(pageSize). */
  function Page<T>(s: seq<T>, pageNumber: int, pageSize: int): (r: seq<T>)
    ensures |r| <= Max(pageSize, 0) && |r| <= |s|
    ensures var skip := Min(Max((pageNumber - 1) * pageSize, 0), |s|);
            forall i :: 0 <= i < |r| ==> skip + i < |s| && r[i] == s[skip + i]
    ensures pageSize > 0 && pageNumber >= 1 && (pageNumber - 1) * pageSize < |s| ==> r != []
  {
    Take(Skip(s, (pageNumber - 1) * pageSize), pageSize)
  }

  /** Row i of a page is row skip + i of the list, where skip is where the page starts. */
  lemma PageAt<T>(s: seq<T>, pageNumber: int, pageSize: int, i: int) returns (k: int)
    requires 0 <= i < |Page(s, pageNumber, pageSize)|
    ensures k == Min(Max((pageNumber - 1) * pageSize, 0), |s|) + i
    ensures 0 <= k < |s| && Page(s, pageNumber, pageSize)[i] == s[k]
  {
    k := Min(Max((pageNumber - 1) * pageSize, 0), |s|) + i;
  }

  /** A page of rows in increasing key order is in increasing key order. */
  lemma PageIncreasing<V>(s: seq<(int, V)>, pageNumber: int, pageSize: int, i: int, j: int)
    requires forall a, b :: 0 <= a < b < |s| ==> s[a].0 < s[b].0
    requires 0 <= i < j < |Page(s, pageNumber, pageSize)|
    ensures Page(s, pageNumber, pageSize)[i].0 < Page(s, pageNumber, pageSize)[j].0
  {
    var a := PageAt(s, pageNumber, pageSize, i);
    var b := PageAt(s, pageNumber, pageSize, j);
    assert a < b;
    assert s[a].0 < s[b].0;
  }

  /** With a positive page size, row i is the (i % size)-th row of page i / size + 1: pages partition the rows. */
  lemma PageCovers<T>(s: seq<T>, pageSize: int, i: int)
    requires pageSize > 0 && 0 <= i < |s|
    ensures i / pageSize >= 0
    ensures i % pageSize < |Page(s, i / pageSize + 1, pageSize)|
    ensures Page(s, i / pageSize + 1, pageSize)[i % pageSize] == s[i]
  {
    var q, r := i / pageSize, i % pageSize;
    assert i == q * pageSize + r && 0 <= r < pageSize;
    assert q >= 0;
    var skip := q * pageSize;
    assert 0 <= skip <= i by { assert skip == i - r; }
    assert (q + 1 - 1) * pageSize == skip;
    var rest := Skip(s, skip);
    assert rest == s[skip..];
    assert Page(s, q + 1, pageSize) == Take(rest, pageSize);
    assert r < |rest|;
    assert rest[r] == s[i];
  }
}
