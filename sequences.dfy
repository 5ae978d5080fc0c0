/**
 * Generic sequence operations the pipeline is built from: filtering (Python's
 * list comprehension with an if-clause), stable sorting (Python's sorted and
 * list.sort with a key), prefixes, and sums over a measure.
 */
module Sequences {
  import opened Wrappers

  /** The elements of s that satisfy keep, in their original order. */
  function Filter<T>(s: seq<T>, keep: T -> bool): (r: seq<T>)
    ensures |r| <= |s|
  {
    if s == [] then []
    else
      var init := Filter(s[..|s| - 1], keep);
      if keep(s[|s| - 1]) then init + [s[|s| - 1]] else init
  }

  /** The filtered sequence holds exactly the elements of s that keep accepts. */
  lemma {:induction false} FilterMembers<T>(s: seq<T>, keep: T -> bool)
    ensures forall x :: x in Filter(s, keep) <==> x in s && keep(x)
  {
    if s != [] {
      var init := s[..|s| - 1];
      FilterMembers(init, keep);
      assert s == init + [s[|s| - 1]];
    }
  }

  /** Filtering a sequence extended by one element. */
  lemma FilterSnoc<T>(s: seq<T>, x: T, keep: T -> bool)
    ensures Filter(s + [x], keep) == Filter(s, keep) + (if keep(x) then [x] else [])
  {
    assert (s + [x])[..|s|] == s;
  }

  /** Filtering a sequence extended at the front by one element. */
  lemma {:induction false} FilterCons<T>(x: T, s: seq<T>, keep: T -> bool)
    ensures Filter([x] + s, keep) == (if keep(x) then [x] else []) + Filter(s, keep)
    decreases |s|
  {
    if s != [] {
      var init := s[..|s| - 1];
      var last := s[|s| - 1];
      assert s == init + [last];
      assert [x] + s == ([x] + init) + [last];
      FilterSnoc([x] + init, last, keep);
      FilterSnoc(init, last, keep);
      FilterCons(x, init, keep);
    } else {
      assert [x] + s == [] + [x];
      FilterSnoc([], x, keep);
    }
  }

  /** Two tests that agree on the elements of s keep the same elements. */
  lemma {:induction false} FilterAgree<T>(s: seq<T>, p: T -> bool, q: T -> bool)
    requires forall i :: 0 <= i < |s| ==> p(s[i]) == q(s[i])
    ensures Filter(s, p) == Filter(s, q)
  {
    if s != [] {
      FilterAgree(s[..|s| - 1], p, q);
    }
  }

  /** A test every element passes keeps everything. */
  lemma {:induction false} FilterKeepsAll<T>(s: seq<T>, keep: T -> bool)
    requires forall i :: 0 <= i < |s| ==> keep(s[i])
    ensures Filter(s, keep) == s
  {
    if s != [] {
      FilterKeepsAll(s[..|s| - 1], keep);
    }
  }

  /** The values f yields on the elements of s, in order, skipping those where it yields None. */
  function FilterMap<A, B>(s: seq<A>, f: A -> Option<B>): (r: seq<B>)
    ensures |r| <= |s|
  {
    if s == [] then []
    else
      var init := FilterMap(s[..|s| - 1], f);
      match f(s[|s| - 1])
      case None => init
      case Some(b) => init + [b]
  }

  /** FilterMap keeps order: the values of a + b are those of a followed by those of b. */
  lemma {:induction false} FilterMapAppend<A, B>(a: seq<A>, b: seq<A>, f: A -> Option<B>)
    ensures FilterMap(a + b, f) == FilterMap(a, f) + FilterMap(b, f)
    decreases |b|
  {
    if b == [] {
      assert a + b == a;
    } else {
      var b' := b[..|b| - 1];
      assert (a + b)[..|a + b| - 1] == a + b';
      assert (a + b)[|a + b| - 1] == b[|b| - 1];
      FilterMapAppend(a, b', f);
    }
  }

  /** Every value of FilterMap(s, f) is what f yields on some element of s. */
  lemma {:induction false} FilterMapSources<A, B>(s: seq<A>, f: A -> Option<B>)
    ensures forall k :: 0 <= k < |FilterMap(s, f)| ==>
      exists i :: 0 <= i < |s| && f(s[i]) == Some(FilterMap(s, f)[k])
  {
    if s != [] {
      var init := s[..|s| - 1];
      FilterMapSources(init, f);
      var r := FilterMap(s, f);
      var r' := FilterMap(init, f);
      forall k | 0 <= k < |r|
        ensures exists i :: 0 <= i < |s| && f(s[i]) == Some(r[k])
      {
        if k < |r'| {
          assert r[k] == r'[k];
          var i :| 0 <= i < |init| && f(init[i]) == Some(r'[k]);
          assert s[i] == init[i];
        } else {
          assert f(s[|s| - 1]) == Some(r[k]);
        }
      }
    } else {
      assert FilterMap(s, f) == [];
    }
  }

  /** Whatever f yields on an element of s is among the values of FilterMap(s, f). */
  lemma {:induction false} FilterMapComplete<A, B>(s: seq<A>, f: A -> Option<B>)
    ensures forall i :: 0 <= i < |s| && f(s[i]).Some? ==> f(s[i]).value in FilterMap(s, f)
  {
    if s != [] {
      var init := s[..|s| - 1];
      FilterMapComplete(init, f);
      var r := FilterMap(s, f);
      assert FilterMap(init, f) <= r;
      forall i | 0 <= i < |s| && f(s[i]).Some?
        ensures f(s[i]).value in r
      {
        if i < |init| {
          assert s[i] == init[i];
        }
      }
    }
  }

  /** a can be obtained from b by deleting elements (keeping the order of the rest). */
  ghost predicate IsSubsequence<T>(a: seq<T>, b: seq<T>)
    decreases |b|
  {
    || a == []
    || (&& b != []
        && (|| (a[|a| - 1] == b[|b| - 1] && IsSubsequence(a[..|a| - 1], b[..|b| - 1]))
            || IsSubsequence(a, b[..|b| - 1])))
  }

  /** Filtering deletes elements and keeps the order of the rest. */
  lemma {:induction false} FilterIsSubsequence<T>(s: seq<T>, keep: T -> bool)
    ensures IsSubsequence(Filter(s, keep), s)
  {
    if s != [] {
      FilterIsSubsequence(s[..|s| - 1], keep);
      var r := Filter(s, keep);
      if keep(s[|s| - 1]) {
        assert r[..|r| - 1] == Filter(s[..|s| - 1], keep);
      }
    }
  }

  lemma {:induction false} SubsequenceReflexive<T>(s: seq<T>)
    ensures IsSubsequence(s, s)
  {
    if s != [] {
      SubsequenceReflexive(s[..|s| - 1]);
    }
  }

  /** Filtering both sides keeps one sequence a subsequence of the other. */
  lemma {:induction false} FilterMonotone<T>(a: seq<T>, b: seq<T>, keep: T -> bool)
    requires IsSubsequence(a, b)
    ensures IsSubsequence(Filter(a, keep), Filter(b, keep))
    decreases |b|
  {
    if a != [] {
      var b' := b[..|b| - 1];
      var x := b[|b| - 1];
      assert b == b' + [x];
      FilterSnoc(b', x, keep);
      var fb := Filter(b, keep);
      if a[|a| - 1] == x && IsSubsequence(a[..|a| - 1], b') {
        var a' := a[..|a| - 1];
        assert a == a' + [x];
        FilterSnoc(a', x, keep);
        FilterMonotone(a', b', keep);
        if keep(x) {
          var fa := Filter(a, keep);
          assert fa[..|fa| - 1] == Filter(a', keep);
          assert fb[..|fb| - 1] == Filter(b', keep);
        }
      } else {
        FilterMonotone(a, b', keep);
        if keep(x) {
          assert fb[..|fb| - 1] == Filter(b', keep);
        }
      }
    }
  }

  /** A subsequence of a subsequence is a subsequence. */
  lemma {:induction false} SubsequenceTransitive<T>(a: seq<T>, b: seq<T>, c: seq<T>)
    requires IsSubsequence(a, b) && IsSubsequence(b, c)
    ensures IsSubsequence(a, c)
    decreases |c|
  {
    if a != [] {
      var b', c' := b[..|b| - 1], c[..|c| - 1];
      if b[|b| - 1] == c[|c| - 1] && IsSubsequence(b', c') {
        if a[|a| - 1] == b[|b| - 1] && IsSubsequence(a[..|a| - 1], b') {
          SubsequenceTransitive(a[..|a| - 1], b', c');
        } else {
          SubsequenceTransitive(a, b', c');
        }
      } else {
        SubsequenceTransitive(a, b, c');
      }
    }
  }

  /** A subsequence is no longer than the sequence it is taken from. */
  lemma {:induction false} SubsequenceLength<T>(a: seq<T>, b: seq<T>)
    requires IsSubsequence(a, b)
    ensures |a| <= |b|
    decreases |b|
  {
    if a != [] {
      if a[|a| - 1] == b[|b| - 1] && IsSubsequence(a[..|a| - 1], b[..|b| - 1]) {
        SubsequenceLength(a[..|a| - 1], b[..|b| - 1]);
      } else {
        SubsequenceLength(a, b[..|b| - 1]);
      }
    }
  }

  /** le is total and transitive: a key order that may have ties. */
  ghost predicate TotalPreorder<T(!new)>(le: (T, T) -> bool) {
    && (forall a, b :: le(a, b) || le(b, a))
    && (forall a, b, c :: le(a, b) && le(b, c) ==> le(a, c))
  }

  ghost predicate SortedBy<T>(s: seq<T>, le: (T, T) -> bool) {
    forall i, j :: 0 <= i < j < |s| ==> le(s[i], s[j])
  }

  /** Places x before the first element it may precede: before its ties, so earlier elements stay first. */
  function Insert<T>(x: T, s: seq<T>, le: (T, T) -> bool): (r: seq<T>)
    ensures multiset(r) == multiset(s) + multiset{x}
  {
    if s == [] || le(x, s[0]) then [x] + s
    else
      assert s == [s[0]] + s[1..];
      [s[0]] + Insert(x, s[1..], le)
  }

  /**
   * A stable sort by the key order le: Python's sorted(s, key=...) and
   * list.sort(key=...), and with reverse=True when le compares keys by >=.
   */
  function SortBy<T>(s: seq<T>, le: (T, T) -> bool): (r: seq<T>)
    ensures multiset(r) == multiset(s)
    ensures |r| == |s|
  {
    if s == [] then []
    else
      assert s == [s[0]] + s[1..];
      var r := Insert(s[0], SortBy(s[1..], le), le);
      assert |multiset(r)| == |s|;
      r
  }

  lemma {:induction false} InsertSorted<T(!new)>(x: T, s: seq<T>, le: (T, T) -> bool)
    requires TotalPreorder(le) && SortedBy(s, le)
    ensures SortedBy(Insert(x, s, le), le)
  {
    if s != [] && !le(x, s[0]) {
      var rest := Insert(x, s[1..], le);
      InsertSorted(x, s[1..], le);
      assert le(s[0], x);
      forall j | 0 <= j < |rest| ensures le(s[0], rest[j]) {
        assert rest[j] in multiset(rest);
        if rest[j] != x {
          assert rest[j] in s[1..];
        }
      }
    }
  }

  /** The sort's output is ordered by le. */
  lemma {:induction false} SortBySorted<T(!new)>(s: seq<T>, le: (T, T) -> bool)
    requires TotalPreorder(le)
    ensures SortedBy(SortBy(s, le), le)
  {
    if s != [] {
      SortBySorted(s[1..], le);
      InsertSorted(s[0], SortBy(s[1..], le), le);
    }
  }

  /** The elements of s tied with x under le (neither goes before the other), in order. */
  function Tied<T>(s: seq<T>, x: T, le: (T, T) -> bool): seq<T> {
    Filter(s, y => le(x, y) && le(y, x))
  }

  lemma {:induction false} InsertTied<T(!new)>(y: T, s: seq<T>, x: T, le: (T, T) -> bool)
    requires TotalPreorder(le)
    ensures Tied(Insert(y, s, le), x, le) == Tied([y] + s, x, le)
  {
    var tie := z => le(x, z) && le(z, x);
    if s != [] && !le(y, s[0]) {
      var rest := s[1..];
      InsertTied(y, rest, x, le);
      assert s == [s[0]] + rest;
      FilterCons(s[0], Insert(y, rest, le), tie);
      FilterCons(y, rest, tie);
      FilterCons(s[0], rest, tie);
      FilterCons(y, s, tie);
      assert !(tie(y) && tie(s[0]));
    }
  }

  /**
   * Stability: the elements tied with any x keep their relative order, so
   * among equal keys the earlier element of the input comes first.
   */
  lemma {:induction false} SortByStable<T(!new)>(s: seq<T>, le: (T, T) -> bool, x: T)
    requires TotalPreorder(le)
    ensures Tied(SortBy(s, le), x, le) == Tied(s, x, le)
  {
    if s != [] {
      var tie := z => le(x, z) && le(z, x);
      var head, tail := s[0], s[1..];
      var first := if tie(head) then [head] else [];
      calc {
        Tied(SortBy(s, le), x, le);
        Tied(Insert(head, SortBy(tail, le), le), x, le);
        { InsertTied(head, SortBy(tail, le), x, le); }
        Tied([head] + SortBy(tail, le), x, le);
        { FilterCons(head, SortBy(tail, le), tie); }
        first + Tied(SortBy(tail, le), x, le);
        { SortByStable(tail, le, x); }
        first + Tied(tail, x, le);
        { FilterCons(head, tail, tie); }
        Tied([head] + tail, x, le);
        { assert s == [head] + tail; }
        Tied(s, x, le);
      }
    }
  }

  /** The ties within a prefix are a prefix of the ties of the whole. */
  lemma TiedPrefix<T>(s: seq<T>, n: nat, x: T, le: (T, T) -> bool)
    requires n <= |s|
    ensures Tied(s[..n], x, le) <= Tied(s, x, le)
  {
    FilterPrefix(s, n, y => le(x, y) && le(y, x));
  }

  /** No two elements of s have the same key. */
  ghost predicate DistinctBy<T, K>(s: seq<T>, key: T -> K) {
    forall i, j :: 0 <= i < j < |s| ==> key(s[i]) != key(s[j])
  }

  lemma {:induction false} InsertDistinct<T, K>(x: T, s: seq<T>, le: (T, T) -> bool, key: T -> K)
    requires DistinctBy(s, key)
    requires forall i :: 0 <= i < |s| ==> key(s[i]) != key(x)
    ensures DistinctBy(Insert(x, s, le), key)
  {
    if s != [] && !le(x, s[0]) {
      var rest := Insert(x, s[1..], le);
      InsertDistinct(x, s[1..], le, key);
      forall j | 0 <= j < |rest| ensures key(s[0]) != key(rest[j]) {
        assert rest[j] in multiset(rest);
        if rest[j] != x {
          assert rest[j] in s[1..];
        }
      }
    }
  }

  /** Sorting keeps keys distinct. */
  lemma {:induction false} SortByDistinct<T, K>(s: seq<T>, le: (T, T) -> bool, key: T -> K)
    requires DistinctBy(s, key)
    ensures DistinctBy(SortBy(s, le), key)
  {
    if s != [] {
      var rest := SortBy(s[1..], le);
      SortByDistinct(s[1..], le, key);
      forall i | 0 <= i < |rest| ensures key(rest[i]) != key(s[0]) {
        assert rest[i] in multiset(s[1..]);
      }
      InsertDistinct(s[0], rest, le, key);
    }
  }

  /** Sorting neither adds nor loses elements. */
  lemma SortByMembers<T>(s: seq<T>, le: (T, T) -> bool)
    ensures forall i :: 0 <= i < |SortBy(s, le)| ==> SortBy(s, le)[i] in s
    ensures forall i :: 0 <= i < |s| ==> s[i] in SortBy(s, le)
  {
    var r := SortBy(s, le);
    forall i | 0 <= i < |r| ensures r[i] in s {
      assert r[i] in multiset(r);
    }
    forall i | 0 <= i < |s| ensures s[i] in r {
      assert s[i] in multiset(s);
    }
  }

  /**
   * Sorting rows built one per key: every sorted row is the row of its own
   * key, that key is one of the keys, and every key still has a row.
   */
  lemma SortByRows<T, K>(keys: seq<K>, rows: seq<T>, le: (T, T) -> bool, key: T -> K, entry: K -> T)
    requires |rows| == |keys|
    requires forall i :: 0 <= i < |keys| ==> rows[i] == entry(keys[i]) && key(rows[i]) == keys[i]
    ensures forall i :: 0 <= i < |SortBy(rows, le)| ==>
      SortBy(rows, le)[i] == entry(key(SortBy(rows, le)[i])) && key(SortBy(rows, le)[i]) in keys
    ensures forall k :: k in keys ==> exists i :: 0 <= i < |SortBy(rows, le)| && key(SortBy(rows, le)[i]) == k
  {
    var sorted := SortBy(rows, le);
    SortByMembers(rows, le);
    forall i | 0 <= i < |sorted|
      ensures sorted[i] == entry(key(sorted[i])) && key(sorted[i]) in keys
    {
      var m :| 0 <= m < |rows| && rows[m] == sorted[i];
      assert key(sorted[i]) == keys[m];
    }
    forall k | k in keys
      ensures exists i :: 0 <= i < |sorted| && key(sorted[i]) == k
    {
      var j :| 0 <= j < |keys| && keys[j] == k;
      assert rows[j] in sorted;
      var i :| 0 <= i < |sorted| && sorted[i] == rows[j];
      assert key(sorted[i]) == k;
    }
  }

  /** Filtering a prefix gives a prefix of the filtered whole. */
  lemma {:induction false} FilterPrefix<T>(s: seq<T>, n: nat, keep: T -> bool)
    requires n <= |s|
    ensures Filter(s[..n], keep) <= Filter(s, keep)
    decreases |s|
  {
    if n < |s| {
      var init := s[..|s| - 1];
      assert s[..n] == init[..n];
      FilterPrefix(init, n, keep);
      FilterSnoc(init, s[|s| - 1], keep);
      assert s == init + [s[|s| - 1]];
    } else {
      assert s[..n] == s;
    }
  }

  /** Python's s[:n], which counts from the end when n is negative. */
  function SlicePrefix<T>(s: seq<T>, n: int): (r: seq<T>)
    ensures n >= 0 ==> |r| == if n < |s| then n else |s|
    ensures n < 0 ==> |r| == if -n < |s| then |s| + n else 0
    ensures r == s[..|r|]
  {
    if n >= 0 then (if n < |s| then s[..n] else s)
    else if -n < |s| then s[..|s| + n] else []
  }

  /** The sum of a real-valued measure over the elements of s. */
  function SumReal<T>(s: seq<T>, m: T -> real): real {
    if s == [] then 0.0 else m(s[0]) + SumReal(s[1..], m)
  }

  /** The sum of an int-valued measure over the elements of s. */
  function SumInt<T>(s: seq<T>, m: T -> int): int {
    if s == [] then 0 else m(s[0]) + SumInt(s[1..], m)
  }

  lemma {:induction false} SumRealAppend<T>(a: seq<T>, b: seq<T>, m: T -> real)
    ensures SumReal(a + b, m) == SumReal(a, m) + SumReal(b, m)
  {
    if a == [] {
      assert a + b == b;
    } else {
      assert (a + b)[0] == a[0] && (a + b)[1..] == a[1..] + b;
      SumRealAppend(a[1..], b, m);
    }
  }

  lemma {:induction false} SumIntAppend<T>(a: seq<T>, b: seq<T>, m: T -> int)
    ensures SumInt(a + b, m) == SumInt(a, m) + SumInt(b, m)
  {
    if a == [] {
      assert a + b == b;
    } else {
      assert (a + b)[0] == a[0] && (a + b)[1..] == a[1..] + b;
      SumIntAppend(a[1..], b, m);
    }
  }

  lemma {:induction false} SumRealInsert<T>(x: T, s: seq<T>, le: (T, T) -> bool, m: T -> real)
    ensures SumReal(Insert(x, s, le), m) == m(x) + SumReal(s, m)
  {
    if s != [] && !le(x, s[0]) {
      SumRealInsert(x, s[1..], le, m);
    }
  }

  lemma {:induction false} SumIntInsert<T>(x: T, s: seq<T>, le: (T, T) -> bool, m: T -> int)
    ensures SumInt(Insert(x, s, le), m) == m(x) + SumInt(s, m)
  {
    if s != [] && !le(x, s[0]) {
      SumIntInsert(x, s[1..], le, m);
    }
  }

  /** Sorting does not change a real-valued sum. */
  lemma {:induction false} SumRealSortBy<T>(s: seq<T>, le: (T, T) -> bool, m: T -> real)
    ensures SumReal(SortBy(s, le), m) == SumReal(s, m)
  {
    if s != [] {
      SumRealSortBy(s[1..], le, m);
      SumRealInsert(s[0], SortBy(s[1..], le), le, m);
    }
  }

  /** Sorting does not change an int-valued sum. */
  lemma {:induction false} SumIntSortBy<T>(s: seq<T>, le: (T, T) -> bool, m: T -> int)
    ensures SumInt(SortBy(s, le), m) == SumInt(s, m)
  {
    if s != [] {
      SumIntSortBy(s[1..], le, m);
      SumIntInsert(s[0], SortBy(s[1..], le), le, m);
    }
  }
}
