/** What a derived Spring Data query does with a table: walk the rows in
    primary-key order, keep the rows a condition selects, and for the
    `OrderBy...Desc` queries sort by a timestamp, newest first. */
module Query {

  /** Every element of `s` is smaller than the next. */
  predicate Increasing(s: seq<int>) {
    forall i, j :: 0 <= i < j < |s| ==> s[i] < s[j]
  }

  /** `k` is the least element of `s`. */
  predicate IsMin(s: set<int>, k: int) {
    k in s && forall j :: j in s ==> k <= j
  }

  /** Some element of a non-empty set. */
  lemma Pick<T>(s: set<T>) returns (x: T)
    requires s != {}
    ensures x in s
  {
    if forall k :: k !in s {
      assert false;
    }
    x :| x in s;
  }

  lemma {:induction false} MinExists(s: set<int>)
    requires s != {}
    ensures exists k :: IsMin(s, k)
    decreases |s|
  {
    var x := Pick(s);
    var rest := s - {x};
    assert forall j :: j in s ==> j == x || j in rest;
    if rest != {} {
      MinExists(rest);
      var m :| IsMin(rest, m);
      if x < m {
        assert IsMin(s, x);
      } else {
        assert IsMin(s, m);
      }
    } else {
      assert IsMin(s, x);
    }
  }

  /** The least element of a non-empty set of keys. */
  function MinOf(s: set<int>): (k: int)
    requires s != {}
    ensures IsMin(s, k)
  {
    MinExists(s);
    var k :| IsMin(s, k);
    k
  }

  lemma IncreasingCons(x: int, t: seq<int>)
    requires Increasing(t)
    requires forall y :: y in t ==> x < y
    ensures Increasing([x] + t)
  {
    forall i, j | 0 <= i < j < |[x] + t|
      ensures ([x] + t)[i] < ([x] + t)[j]
    {
      assert t[j - 1] in t;
      if i > 0 {
        assert ([x] + t)[i] == t[i - 1];
      } else {
        assert ([x] + t)[i] == x;
      }
      assert ([x] + t)[j] == t[j - 1];
    }
  }

  /** The keys of a table in ascending order. */
  function SortedKeys<V>(m: map<int, V>): (ks: seq<int>)
    ensures forall k :: k in ks <==> k in m
    ensures forall i :: 0 <= i < |ks| ==> ks[i] in m
    ensures Increasing(ks)
    decreases |m.Keys|
  {
    if m.Keys == {} then []
    else
      var k := MinOf(m.Keys);
      var rest := m - {k};
      assert rest.Keys == m.Keys - {k};
      var tail := SortedKeys(rest);
      assert forall y :: y in tail ==> k < y by {
        forall y | y in tail ensures k < y {
          assert y in m.Keys && y != k;
        }
      }
      IncreasingCons(k, tail);
      [k] + tail
  }

  /** The rows stored under `ks`, in that order. */
  function Rows<V>(m: map<int, V>, ks: seq<int>): (r: seq<V>)
    requires forall i :: 0 <= i < |ks| ==> ks[i] in m
    ensures |r| == |ks|
    ensures forall i :: 0 <= i < |ks| ==> r[i] == m[ks[i]]
  {
    seq(|ks|, i requires 0 <= i < |ks| => m[ks[i]])
  }

  /** The elements of `s` that satisfy `p`, in their order in `s`. */
  function Filter<T(!new)>(s: seq<T>, p: T -> bool): (r: seq<T>)
    ensures |r| <= |s|
    ensures forall x :: x in r <==> x in s && p(x)
    ensures forall i :: 0 <= i < |r| ==> p(r[i])
  {
    if s == [] then []
    else (if p(s[0]) then [s[0]] else []) + Filter(s[1..], p)
  }

  /** A filtered increasing sequence is still increasing. */
  lemma {:induction false} FilterIncreasing(s: seq<int>, p: int -> bool)
    requires Increasing(s)
    ensures Increasing(Filter(s, p))
  {
    if s != [] {
      FilterIncreasing(s[1..], p);
      var tail := Filter(s[1..], p);
      assert forall x :: x in s[1..] ==> s[0] < x;
      if p(s[0]) {
        IncreasingCons(s[0], tail);
      }
    }
  }

  /** An increasing sequence holds as many elements as the set of its elements. */
  lemma {:induction false} IncreasingCard(s: seq<int>)
    requires Increasing(s)
    ensures |set x | x in s| == |s|
  {
    if s != [] {
      IncreasingCard(s[1..]);
      assert (set x | x in s) == {s[0]} + (set x | x in s[1..]);
      assert s[0] !in (set x | x in s[1..]);
    }
  }

  /** The condition `p` read at a key of `m`. */
  function AtKey<V>(m: map<int, V>, p: V -> bool): int -> bool {
    (k: int) => k in m && p(m[k])
  }

  /** The keys whose rows satisfy `p`, in ascending order. */
  function SelectKeys<V>(m: map<int, V>, p: V -> bool): (ks: seq<int>)
    ensures Increasing(ks)
    ensures forall i :: 0 <= i < |ks| ==> ks[i] in m && p(m[ks[i]])
    ensures forall k :: k in m && p(m[k]) ==> k in ks
  {
    var all := SortedKeys(m);
    FilterIncreasing(all, AtKey(m, p));
    Filter(all, AtKey(m, p))
  }

  /** A derived query `findBy...`: the rows that satisfy `p`, in primary-key order,
      each matching row once and nothing else. */
  function Select<V>(m: map<int, V>, p: V -> bool): (r: seq<V>)
    ensures forall i :: 0 <= i < |r| ==> p(r[i])
    ensures forall k :: k in m && p(m[k]) ==> m[k] in r
    ensures forall i :: 0 <= i < |r| ==> exists k :: k in m && m[k] == r[i]
  {
    var ks := SelectKeys(m, p);
    var r := Rows(m, ks);
    assert forall k :: k in m && p(m[k]) ==> m[k] in r by {
      forall k | k in m && p(m[k])
        ensures m[k] in r
      {
        var i :| 0 <= i < |ks| && ks[i] == k;
        assert r[i] == m[k];
      }
    }
    r
  }

  /** Splitting a sequence by a condition and its negation loses and duplicates nothing. */
  lemma {:induction false} FilterPartition<T(!new)>(s: seq<T>, p: T -> bool, q: T -> bool)
    requires forall i :: 0 <= i < |s| ==> q(s[i]) == !p(s[i])
    ensures |Filter(s, p)| + |Filter(s, q)| == |s|
  {
    if s != [] {
      FilterPartition(s[1..], p, q);
    }
  }

  /** A table has as many keys in order as it has entries. */
  lemma SortedKeysCount<V>(m: map<int, V>)
    ensures |SortedKeys(m)| == |m|
  {
    var ks := SortedKeys(m);
    IncreasingCard(ks);
    assert (set x | x in ks) == m.Keys;
  }

  /** The rows a condition selects and the rows its negation selects add up to the table. */
  lemma SelectPartition<V>(m: map<int, V>, p: V -> bool, q: V -> bool)
    requires forall v :: q(v) == !p(v)
    ensures |Select(m, p)| + |Select(m, q)| == |m|
  {
    var all := SortedKeys(m);
    FilterPartition(all, AtKey(m, p), AtKey(m, q));
    SortedKeysCount(m);
  }

  /** A row is in a selection exactly when some key holds it and it satisfies the condition. */
  lemma SelectContains<V(!new)>(m: map<int, V>, p: V -> bool)
    ensures forall v :: v in Select(m, p) <==> (exists k :: k in m && m[k] == v) && p(v)
  {
    var r := Select(m, p);
    forall v | v in r
      ensures (exists k :: k in m && m[k] == v) && p(v)
    {
      var i :| 0 <= i < |r| && r[i] == v;
      assert p(r[i]);
    }
  }

  /** Every row passes. */
  function Always<V>(): V -> bool {
    (v: V) => true
  }

  /** A selection holds exactly as many rows as there are keys whose rows satisfy the condition. */
  lemma SelectCount<V>(m: map<int, V>, p: V -> bool, keys: set<int>)
    requires forall k :: k in keys <==> k in m && p(m[k])
    ensures |Select(m, p)| == |keys|
  {
    var ks := SelectKeys(m, p);
    IncreasingCard(ks);
    assert (set x | x in ks) == keys by {
      forall x ensures x in ks <==> x in keys {
        if x in ks {
          var i :| 0 <= i < |ks| && ks[i] == x;
        }
      }
    }
  }

  lemma RowsAppend<V>(m: map<int, V>, a: seq<int>, b: seq<int>)
    requires forall i :: 0 <= i < |a| ==> a[i] in m
    requires forall i :: 0 <= i < |b| ==> b[i] in m
    ensures forall i :: 0 <= i < |a + b| ==> (a + b)[i] in m
    ensures Rows(m, a + b) == Rows(m, a) + Rows(m, b)
  {
  }

  /** Filtering the rows stored under a key sequence is filtering the keys by the
      condition read at each key. */
  lemma {:induction false} FilterRows<V(!new)>(m: map<int, V>, ks: seq<int>, q: V -> bool)
    requires forall i :: 0 <= i < |ks| ==> ks[i] in m
    ensures forall i :: 0 <= i < |Filter(ks, AtKey(m, q))| ==> Filter(ks, AtKey(m, q))[i] in m
    ensures Filter(Rows(m, ks), q) == Rows(m, Filter(ks, AtKey(m, q)))
  {
    var fk := Filter(ks, AtKey(m, q));
    forall i | 0 <= i < |fk| ensures fk[i] in m {
      assert AtKey(m, q)(fk[i]);
    }
    if ks != [] {
      FilterRows(m, ks[1..], q);
      FilterRowsHead(m, ks, q);
      var tail := Filter(ks[1..], AtKey(m, q));
      if AtKey(m, q)(ks[0]) {
        RowsAppend(m, [ks[0]], tail);
      }
    }
  }

  /** The first step of `FilterRows`: both filters split off the head the same way. */
  lemma FilterRowsHead<V(!new)>(m: map<int, V>, ks: seq<int>, q: V -> bool)
    requires ks != [] && forall i :: 0 <= i < |ks| ==> ks[i] in m
    ensures Filter(Rows(m, ks), q) == (if q(m[ks[0]]) then [m[ks[0]]] else []) + Filter(Rows(m, ks[1..]), q)
    ensures Filter(ks, AtKey(m, q)) == (if AtKey(m, q)(ks[0]) then [ks[0]] else []) + Filter(ks[1..], AtKey(m, q))
  {
    assert Rows(m, ks)[1..] == Rows(m, ks[1..]);
  }

  /** Filtering distributes over concatenation. */
  lemma {:induction false} FilterAppend<T(!new)>(x: seq<T>, y: seq<T>, p: T -> bool)
    ensures Filter(x + y, p) == Filter(x, p) + Filter(y, p)
  {
    if x == [] {
      assert x + y == y;
    } else {
      var xy := x + y;
      assert xy == [x[0]] + (x[1..] + y);
      assert xy[1..] == x[1..] + y;
      FilterAppend(x[1..], y, p);
    }
  }

  /** Two filters in a row are one filter by the conjunction. */
  lemma {:induction false} FilterFilter<T(!new)>(s: seq<T>, a: T -> bool, b: T -> bool, c: T -> bool)
    requires forall x :: c(x) == (a(x) && b(x))
    ensures Filter(Filter(s, a), b) == Filter(s, c)
  {
    if s != [] {
      FilterFilter(s[1..], a, b, c);
      var head := if a(s[0]) then [s[0]] else [];
      assert Filter(s, a) == head + Filter(s[1..], a);
      FilterAppend(head, Filter(s[1..], a), b);
      if a(s[0]) {
        assert Filter(head, b) == (if b(s[0]) then [s[0]] else []) + Filter(head[1..], b);
        assert head[1..] == [];
      }
    }
  }

  /** Filtering a selection by `q` is selecting by both conditions at once. */
  lemma FilterSelect<V(!new)>(m: map<int, V>, p: V -> bool, q: V -> bool, pq: V -> bool)
    requires forall v :: pq(v) == (p(v) && q(v))
    ensures Filter(Select(m, p), q) == Select(m, pq)
  {
    var all := SortedKeys(m);
    FilterRows(m, Filter(all, AtKey(m, p)), q);
    FilterFilter(all, AtKey(m, p), AtKey(m, q), AtKey(m, pq));
  }

  /** `s` is sorted by `createdAt`, newest first. */
  predicate NewestFirst<T>(s: seq<T>, createdAt: T -> int) {
    forall i, j :: 0 <= i < j < |s| ==> createdAt(s[i]) >= createdAt(s[j])
  }

  lemma NewestFirstCons<T>(x: T, t: seq<T>, createdAt: T -> int)
    requires NewestFirst(t, createdAt)
    requires forall y :: y in t ==> createdAt(x) >= createdAt(y)
    ensures NewestFirst([x] + t, createdAt)
  {
    forall i, j | 0 <= i < j < |[x] + t|
      ensures createdAt(([x] + t)[i]) >= createdAt(([x] + t)[j])
    {
      if i > 0 {
        assert ([x] + t)[i] == t[i - 1];
      }
      assert ([x] + t)[j] == t[j - 1];
    }
  }

  /** Insert `x` into a newest-first sequence, after every element at least as new. */
  function Insert<T>(x: T, s: seq<T>, createdAt: T -> int): (r: seq<T>)
    requires NewestFirst(s, createdAt)
    ensures multiset(r) == multiset(s) + multiset{x}
    ensures NewestFirst(r, createdAt)
  {
    if s == [] then [x]
    else
      assert s == [s[0]] + s[1..];
      assert forall y :: y in s ==> createdAt(s[0]) >= createdAt(y);
      if createdAt(s[0]) >= createdAt(x) then
        var tail := Insert(x, s[1..], createdAt);
        assert forall y :: y in tail ==> createdAt(s[0]) >= createdAt(y) by {
          forall y | y in tail ensures createdAt(s[0]) >= createdAt(y) {
            assert y in multiset(tail);
            assert y == x || y in s;
          }
        }
        NewestFirstCons(s[0], tail, createdAt);
        [s[0]] + tail
      else
        NewestFirstCons(x, s, createdAt);
        [x] + s
  }

  /** `ORDER BY createdAt DESC`: the same rows, newest first. */
  function SortNewestFirst<T>(s: seq<T>, createdAt: T -> int): (r: seq<T>)
    ensures multiset(r) == multiset(s)
    ensures NewestFirst(r, createdAt)
  {
    if s == [] then []
    else
      assert s == [s[0]] + s[1..];
      Insert(s[0], SortNewestFirst(s[1..], createdAt), createdAt)
  }
}
