/** The string and value orders behind ORDER BY and JavaScript's default `sort`:
    code-point lexicographic order, with NULL before every text. */
module Collation {
  import opened Records
  import opened Sorting

  /** `a` comes no later than `b` in lexicographic code-point order. */
  predicate LexLe(a: string, b: string) {
    |a| == 0 || (|b| > 0 && (a[0] < b[0] || (a[0] == b[0] && LexLe(a[1..], b[1..]))))
  }

  predicate LexLt(a: string, b: string) {
    LexLe(a, b) && a != b
  }

  lemma {:induction false} LexLeTotal(a: string, b: string)
    ensures LexLe(a, b) || LexLe(b, a)
  {
    if |a| > 0 && |b| > 0 && a[0] == b[0] {
      LexLeTotal(a[1..], b[1..]);
    }
  }

  lemma {:induction false} LexLeReflexive(a: string)
    ensures LexLe(a, a)
  {
    if |a| > 0 {
      LexLeReflexive(a[1..]);
    }
  }

  lemma {:induction false} LexLeTransitive(a: string, b: string, c: string)
    requires LexLe(a, b) && LexLe(b, c)
    ensures LexLe(a, c)
  {
    if |a| > 0 && |b| > 0 && |c| > 0 && a[0] == b[0] == c[0] {
      LexLeTransitive(a[1..], b[1..], c[1..]);
    }
  }

  lemma {:induction false} LexLeAntisymmetric(a: string, b: string)
    requires LexLe(a, b) && LexLe(b, a)
    ensures a == b
  {
    if |a| > 0 && |b| > 0 {
      LexLeAntisymmetric(a[1..], b[1..]);
      assert a == [a[0]] + a[1..] && b == [b[0]] + b[1..];
    }
  }

  lemma LexLeIsTotalPreorder()
    ensures TotalPreorder(LexLe)
  {
    forall a, b ensures LexLe(a, b) || LexLe(b, a) {
      LexLeTotal(a, b);
    }
    forall a, b, c | LexLe(a, b) && LexLe(b, c) ensures LexLe(a, c) {
      LexLeTransitive(a, b, c);
    }
  }

  /** Sorting distinct strings lexicographically leaves them strictly increasing. */
  lemma SortedDistinctIncreasing(s: seq<string>)
    requires NoDuplicates(s)
    ensures var r := SortBy(s, LexLe); forall i, j :: 0 <= i < j < |r| ==> LexLt(r[i], r[j])
  {
    LexLeIsTotalPreorder();
    SortSorted(s, LexLe);
    SortKeepsNoDuplicates(s, LexLe);
  }

  /** SQL Server's ascending order on a nullable text column: NULL first, then texts lexicographically. */
  predicate ValueLe(a: Value, b: Value) {
    a.Null? || (b.Text? && LexLe(a.s, b.s))
  }

  lemma ValueLeIsTotalPreorder()
    ensures TotalPreorder(ValueLe)
  {
    forall a, b ensures ValueLe(a, b) || ValueLe(b, a) {
      if a.Text? && b.Text? { LexLeTotal(a.s, b.s); }
    }
    forall a, b, c | ValueLe(a, b) && ValueLe(b, c) ensures ValueLe(a, c) {
      if a.Text? { LexLeTransitive(a.s, b.s, c.s); }
    }
  }
}
