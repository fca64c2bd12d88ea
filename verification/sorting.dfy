/** Orderings, a stable insertion sort, first-occurrence de-duplication and sums over sequences:
    the in-memory counterparts of SQL's ORDER BY, DISTINCT and SUM and of JavaScript's `sort` and `reduce`. */
module Sorting {

  ghost predicate Total<T(!new)>(le: (T, T) -> bool) {
    forall a, b :: le(a, b) || le(b, a)
  }

  ghost predicate Transitive<T(!new)>(le: (T, T) -> bool) {
    forall a, b, c :: le(a, b) && le(b, c) ==> le(a, c)
  }

  /** What an ORDER BY key needs: every two rows compare, and comparisons chain. */
  ghost predicate TotalPreorder<T(!new)>(le: (T, T) -> bool) {
    Total(le) && Transitive(le)
  }

  ghost predicate SortedBy<T>(s: seq<T>, le: (T, T) -> bool) {
    forall i, j :: 0 <= i < j < |s| ==> le(s[i], s[j])
  }

  /** Puts `x` in front of the first element it does not come after. */
  function Insert<T>(x: T, s: seq<T>, le: (T, T) -> bool): (r: seq<T>)
    ensures |r| == |s| + 1
    ensures multiset(r) == multiset(s) + multiset{x}
  {
    if |s| == 0 then [x]
    else
      assert s == [s[0]] + s[1..];
      if le(x, s[0]) then [x] + s
      else [s[0]] + Insert(x, s[1..], le)
  }

  /** Stable insertion sort: rows that compare equal keep their original relative order. */
  function SortBy<T>(s: seq<T>, le: (T, T) -> bool): (r: seq<T>)
    ensures |r| == |s|
    ensures multiset(r) == multiset(s)
  {
    if |s| == 0 then []
    else
      assert s == [s[0]] + s[1..];
      Insert(s[0], SortBy(s[1..], le), le)
  }

  lemma {:induction false} InsertSorted<T(!new)>(x: T, s: seq<T>, le: (T, T) -> bool)
    requires TotalPreorder(le)
    requires SortedBy(s, le)
    ensures SortedBy(Insert(x, s, le), le)
  {
    if |s| > 0 && !le(x, s[0]) {
      SortedTail(s, le);
      InsertSorted(x, s[1..], le);
      var tail := Insert(x, s[1..], le);
      InsertAfterHead(x, s, le);
      assert Insert(x, s, le) == [s[0]] + tail;
      SortedCons(s[0], tail, le);
    } else if |s| > 0 {
      assert forall k :: 0 <= k < |s| ==> le(x, s[k]) by {
        forall k | 0 <= k < |s| ensures le(x, s[k]) {
          if k > 0 { assert le(s[0], s[k]); }
        }
      }
      SortedCons(x, s, le);
    }
  }

  lemma SortedTail<T>(s: seq<T>, le: (T, T) -> bool)
    requires |s| > 0 && SortedBy(s, le)
    ensures SortedBy(s[1..], le)
  {
    forall i, j | 0 <= i < j < |s[1..]| ensures le(s[1..][i], s[1..][j]) {
      assert s[1..][i] == s[i + 1] && s[1..][j] == s[j + 1];
    }
  }

  /** A row that comes before every row of a sorted sequence can be put in front of it. */
  lemma SortedCons<T>(x: T, s: seq<T>, le: (T, T) -> bool)
    requires SortedBy(s, le)
    requires forall k :: 0 <= k < |s| ==> le(x, s[k])
    ensures SortedBy([x] + s, le)
  {
    var r := [x] + s;
    forall i, j | 0 <= i < j < |r| ensures le(r[i], r[j]) {
      assert r[j] == s[j - 1];
      if i > 0 { assert r[i] == s[i - 1]; }
    }
  }

  /** When `x` goes past the head of a sorted sequence, the head still comes first. */
  lemma InsertAfterHead<T(!new)>(x: T, s: seq<T>, le: (T, T) -> bool)
    requires TotalPreorder(le)
    requires SortedBy(s, le)
    requires |s| > 0 && !le(x, s[0])
    ensures forall k :: 0 <= k < |Insert(x, s[1..], le)| ==> le(s[0], Insert(x, s[1..], le)[k])
  {
    var tail := Insert(x, s[1..], le);
    assert le(s[0], x);
    forall k | 0 <= k < |tail| ensures le(s[0], tail[k]) {
      assert tail[k] in multiset(tail);
      if tail[k] != x {
        assert tail[k] in multiset(s[1..]);
        var m :| 0 <= m < |s[1..]| && s[1..][m] == tail[k];
        assert s[1..][m] == s[m + 1];
      }
    }
  }

  /** The sort orders its output whenever the ordering is a total preorder. */
  lemma {:induction false} SortSorted<T(!new)>(s: seq<T>, le: (T, T) -> bool)
    requires TotalPreorder(le)
    ensures SortedBy(SortBy(s, le), le)
  {
    if |s| > 0 {
      SortSorted(s[1..], le);
      InsertSorted(s[0], SortBy(s[1..], le), le);
    }
  }

  /** Sorting rearranges rows: the same rows are there, and nothing else. */
  lemma SortSameElements<T>(s: seq<T>, le: (T, T) -> bool)
    ensures forall x :: x in SortBy(s, le) <==> x in s
  {
    var r := SortBy(s, le);
    forall x ensures x in r <==> x in s {
      assert x in r <==> x in multiset(r);
      assert x in s <==> x in multiset(s);
    }
  }

  // ---------------------------------------------------------------------------------------------
  // Sums: SQL's SUM and JavaScript's `reduce((sum, row) => sum + row.total, 0)`.

  function SumBy<T>(s: seq<T>, f: T -> int): int {
    if |s| == 0 then 0 else SumBy(s[..|s| - 1], f) + f(s[|s| - 1])
  }

  lemma {:induction false} SumByAppend<T>(a: seq<T>, b: seq<T>, f: T -> int)
    ensures SumBy(a + b, f) == SumBy(a, f) + SumBy(b, f)
  {
    if |b| == 0 {
      assert a + b == a;
    } else {
      assert (a + b)[..|a + b| - 1] == a + b[..|b| - 1];
      SumByAppend(a, b[..|b| - 1], f);
    }
  }

  /** Two sequences of the same length whose elements carry equal weights have equal sums. */
  lemma {:induction false} SumByPointwise<A, B>(a: seq<A>, f: A -> int, b: seq<B>, g: B -> int)
    requires |a| == |b|
    requires forall i :: 0 <= i < |a| ==> f(a[i]) == g(b[i])
    ensures SumBy(a, f) == SumBy(b, g)
  {
    if |a| > 0 {
      var n := |a| - 1;
      assert forall i :: 0 <= i < n ==> a[..n][i] == a[i] && b[..n][i] == b[i];
      SumByPointwise(a[..n], f, b[..n], g);
    }
  }

  lemma SumByCons<T>(x: T, s: seq<T>, f: T -> int)
    ensures SumBy([x] + s, f) == f(x) + SumBy(s, f)
  {
    SumByAppend([x], s, f);
    assert [x][..0] == [];
  }

  lemma {:induction false} InsertKeepsSum<T>(x: T, s: seq<T>, le: (T, T) -> bool, f: T -> int)
    ensures SumBy(Insert(x, s, le), f) == f(x) + SumBy(s, f)
  {
    if |s| == 0 {
      SumByCons(x, s, f);
    } else if le(x, s[0]) {
      SumByCons(x, s, f);
    } else {
      InsertKeepsSum(x, s[1..], le, f);
      SumByCons(s[0], Insert(x, s[1..], le), f);
      SumByCons(s[0], s[1..], f);
      assert [s[0]] + s[1..] == s;
    }
  }

  /** Summing after sorting gives the same total as summing the unsorted rows. */
  lemma {:induction false} SortKeepsSum<T>(s: seq<T>, le: (T, T) -> bool, f: T -> int)
    ensures SumBy(SortBy(s, le), f) == SumBy(s, f)
  {
    if |s| > 0 {
      var x, rest := s[0], s[1..];
      assert s == [x] + rest;
      SumByCons(x, rest, f);
      SortKeepsSum(rest, le, f);
      InsertKeepsSum(x, SortBy(rest, le), le, f);
    }
  }

  // ---------------------------------------------------------------------------------------------
  // Filtering: a WHERE clause over rows held in table order.

  /** The rows `keep` admits, in their original order. */
  function Filter<T(!new)>(s: seq<T>, keep: T -> bool): (r: seq<T>)
    ensures |r| <= |s|
    ensures forall x :: x in r <==> x in s && keep(x)
  {
    if |s| == 0 then []
    else
      var init, x := s[..|s| - 1], s[|s| - 1];
      assert s == init + [x];
      var p := Filter(init, keep);
      if keep(x) then p + [x] else p
  }

  /** Appending a row appends it to the filtered rows exactly when the condition admits it. */
  lemma FilterSnoc<T(!new)>(s: seq<T>, x: T, keep: T -> bool)
    ensures Filter(s + [x], keep) == if keep(x) then Filter(s, keep) + [x] else Filter(s, keep)
  {
    assert (s + [x])[..|s|] == s;
  }

  /** Filtering from the front: the first row survives exactly when the condition admits it. */
  lemma {:induction false} FilterCons<T(!new)>(x: T, s: seq<T>, keep: T -> bool)
    ensures Filter([x] + s, keep) == (if keep(x) then [x] else []) + Filter(s, keep)
  {
    if |s| == 0 {
      assert [x] + s == [] + [x];
      FilterSnoc([], x, keep);
    } else {
      var init, y := s[..|s| - 1], s[|s| - 1];
      assert s == init + [y];
      assert [x] + s == ([x] + init) + [y];
      FilterCons(x, init, keep);
      FilterSnoc([x] + init, y, keep);
      FilterSnoc(init, y, keep);
    }
  }

  /** A loop that pushes `f(x)` for each admitted `x` grows as the filter does, one image per survivor. */
  lemma FilterMapCons<A, B>(x: A, ks: seq<A>, d: seq<B>, keep: A -> bool, f: A -> B)
    requires |d| == |ks| && forall i :: 0 <= i < |ks| ==> d[i] == f(ks[i])
    ensures var ks' := (if keep(x) then [x] else []) + ks;
            var d' := (if keep(x) then [f(x)] else []) + d;
            |d'| == |ks'| && forall i :: 0 <= i < |ks'| ==> d'[i] == f(ks'[i])
  {
    if keep(x) {
      var ks', d' := [x] + ks, [f(x)] + d;
      forall i | 0 <= i < |ks'| ensures d'[i] == f(ks'[i]) {
        if i > 0 {
          assert ks'[i] == ks[i - 1] && d'[i] == d[i - 1];
        }
      }
    } else {
      assert [] + ks == ks && [] + d == d;
    }
  }

  /** Filtering keeps the survivors in their original order. */
  lemma {:induction false} FilterSorted<T(!new)>(s: seq<T>, keep: T -> bool, le: (T, T) -> bool)
    requires SortedBy(s, le)
    ensures SortedBy(Filter(s, keep), le)
  {
    if |s| > 0 {
      var init, x := s[..|s| - 1], s[|s| - 1];
      assert s == init + [x];
      FilterSorted(init, keep, le);
      FilterSnoc(init, x, keep);
      var p := Filter(init, keep);
      forall a | a in p ensures le(a, x) {
        var k :| 0 <= k < |init| && init[k] == a;
        assert s[k] == a;
      }
    }
  }

  /** Two conditions that agree on every row keep the same rows. */
  lemma {:induction false} FilterCongruent<T(!new)>(s: seq<T>, a: T -> bool, b: T -> bool)
    requires forall x :: x in s ==> a(x) == b(x)
    ensures Filter(s, a) == Filter(s, b)
  {
    if |s| > 0 {
      var init := s[..|s| - 1];
      assert forall x :: x in init ==> x in s;
      assert s[|s| - 1] in s;
      FilterCongruent(init, a, b);
    }
  }

  /** A condition that every row meets keeps them all. */
  lemma {:induction false} FilterAll<T(!new)>(s: seq<T>, keep: T -> bool)
    requires forall x :: x in s ==> keep(x)
    ensures Filter(s, keep) == s
  {
    if |s| > 0 {
      var init := s[..|s| - 1];
      assert forall x :: x in init ==> x in s;
      assert s[|s| - 1] in s;
      FilterAll(init, keep);
      assert s == init + [s[|s| - 1]];
    }
  }

  /** A condition that no row meets keeps none. */
  lemma {:induction false} FilterNone<T(!new)>(s: seq<T>, keep: T -> bool)
    requires forall x :: x in s ==> !keep(x)
    ensures Filter(s, keep) == []
  {
    if |s| > 0 {
      var init := s[..|s| - 1];
      assert forall x :: x in init ==> x in s;
      assert s[|s| - 1] in s;
      FilterNone(init, keep);
    }
  }

  /** The conjunction of two conditions. */
  function Both<T>(a: T -> bool, b: T -> bool): T -> bool {
    x => a(x) && b(x)
  }

  /** Filtering twice keeps the rows both conditions admit. */
  lemma {:induction false} FilterFilter<T(!new)>(s: seq<T>, a: T -> bool, b: T -> bool)
    ensures Filter(Filter(s, a), b) == Filter(s, Both(a, b))
  {
    if |s| > 0 {
      var init, x := s[..|s| - 1], s[|s| - 1];
      FilterFilter(init, a, b);
      var fa := Filter(init, a);
      if a(x) {
        assert (fa + [x])[..|fa|] == fa;
      }
    }
  }

  /** Rows admitted by exactly one of two disjoint conditions are counted once. */
  lemma {:induction false} FilterSplit<T(!new)>(s: seq<T>, p: T -> bool, a: T -> bool, b: T -> bool)
    requires forall x :: x in s ==> (p(x) <==> a(x) || b(x)) && !(a(x) && b(x))
    ensures |Filter(s, p)| == |Filter(s, a)| + |Filter(s, b)|
  {
    if |s| > 0 {
      var init := s[..|s| - 1];
      assert forall x :: x in init ==> x in s;
      assert s[|s| - 1] in s;
      FilterSplit(init, p, a, b);
    }
  }

  /** The condition `key(x) == k`. */
  function KeyIs<T>(key: T -> string, k: string): T -> bool {
    x => key(x) == k
  }

  /** The condition `key(x) in keys`. */
  function KeyIn<T>(key: T -> string, keys: seq<string>): T -> bool {
    x => key(x) in keys
  }

  /** How many rows have each key. */
  function KeyCount<T(!new)>(s: seq<T>, key: T -> string): string -> int {
    k => |Filter(s, KeyIs(key, k))|
  }

  /** Counting the rows of each of a list of distinct keys, and adding the counts up, counts every
      row whose key is listed. */
  lemma {:induction false} PartitionCount<T(!new)>(s: seq<T>, key: T -> string, keys: seq<string>)
    requires NoDuplicates(keys)
    ensures SumBy(keys, KeyCount(s, key)) == |Filter(s, KeyIn(key, keys))|
  {
    if |keys| == 0 {
      FilterNone(s, KeyIn(key, keys));
    } else {
      var init, k := keys[..|keys| - 1], keys[|keys| - 1];
      assert keys == init + [k];
      assert NoDuplicates(init);
      PartitionCount(s, key, init);
      FilterSplit(s, KeyIn(key, keys), KeyIn(key, init), KeyIs(key, k));
    }
  }

  /** When every row's key is listed once, the per-key counts add up to the number of rows. */
  lemma PartitionCountAll<T(!new)>(s: seq<T>, key: T -> string, keys: seq<string>)
    requires NoDuplicates(keys)
    requires forall x :: x in s ==> key(x) in keys
    ensures SumBy(keys, KeyCount(s, key)) == |s|
  {
    PartitionCount(s, key, keys);
    FilterAll(s, KeyIn(key, keys));
  }

  // ---------------------------------------------------------------------------------------------
  // De-duplication: SQL's DISTINCT and JavaScript's `new Set(...)`, both in first-occurrence order.

  ghost predicate NoDuplicates<T>(s: seq<T>) {
    forall i, j :: 0 <= i < j < |s| ==> s[i] != s[j]
  }

  function Distinct<T(==,!new)>(s: seq<T>): (r: seq<T>)
    ensures NoDuplicates(r)
    ensures forall x :: x in r <==> x in s
    ensures |r| <= |s|
  {
    if |s| == 0 then []
    else
      var p := Distinct(s[..|s| - 1]);
      assert forall x :: x in s <==> x in s[..|s| - 1] || x == s[|s| - 1] by {
        assert s == s[..|s| - 1] + [s[|s| - 1]];
      }
      if s[|s| - 1] in p then p else p + [s[|s| - 1]]
  }

  /** Filtering rows without duplicates leaves them without duplicates. */
  lemma {:induction false} FilterKeepsNoDuplicates<T(!new)>(s: seq<T>, keep: T -> bool)
    requires NoDuplicates(s)
    ensures NoDuplicates(Filter(s, keep))
  {
    if |s| > 0 {
      var init, x := s[..|s| - 1], s[|s| - 1];
      assert s == init + [x];
      assert NoDuplicates(init) by {
        forall i, j | 0 <= i < j < |init| ensures init[i] != init[j] {
          assert init[i] == s[i] && init[j] == s[j];
        }
      }
      FilterKeepsNoDuplicates(init, keep);
      FilterSnoc(init, x, keep);
      var p := Filter(init, keep);
      if keep(x) {
        assert x !in init by {
          forall i | 0 <= i < |init| ensures init[i] != x {
            assert init[i] == s[i] && x == s[|s| - 1];
          }
        }
        var r := p + [x];
        forall i, j | 0 <= i < j < |r| ensures r[i] != r[j] {
          if j == |p| {
            assert r[i] == p[i] && p[i] in p;
          } else {
            assert r[i] == p[i] && r[j] == p[j];
          }
        }
      }
    }
  }

  /** Sorting rows without duplicates leaves them without duplicates. */
  lemma SortKeepsNoDuplicates<T>(s: seq<T>, le: (T, T) -> bool)
    requires NoDuplicates(s)
    ensures NoDuplicates(SortBy(s, le))
  {
    var r := SortBy(s, le);
    NoDuplicatesMultiset(s);
    forall i, j | 0 <= i < j < |r| ensures r[i] != r[j] {
      TwoOccurrences(r, i, j);
    }
  }

  lemma TwoOccurrences<T>(r: seq<T>, i: nat, j: nat)
    requires i < j < |r|
    ensures r[i] == r[j] ==> multiset(r)[r[i]] >= 2
  {
    assert r == r[..i] + [r[i]] + r[i + 1..j] + [r[j]] + r[j + 1..];
  }

  lemma {:induction false} NoDuplicatesMultiset<T>(s: seq<T>)
    requires NoDuplicates(s)
    ensures forall x :: multiset(s)[x] <= 1
  {
    if |s| > 0 {
      var t := s[..|s| - 1];
      assert NoDuplicates(t);
      NoDuplicatesMultiset(t);
      assert s == t + [s[|s| - 1]];
      assert s[|s| - 1] !in t;
    }
  }
}
