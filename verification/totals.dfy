/** Ledger selections and sums: the WHERE clauses and SUM(amount) aggregates of the report queries,
    and the facts that let a per-member, per-ward or per-quarter total be compared with the rows behind it. */
module Totals {
  import opened Wrappers
  import opened Records
  import opened Sorting
  import opened DateFilter

  /** The two residential groupings recorded on a member row. */
  datatype Dim = WardDim | QuarterDim

  function Attr(m: Member, d: Dim): Value {
    match d
    case WardDim => m.ward
    case QuarterDim => m.quarters
  }

  /** Which member rows a query keeps. */
  datatype MemberFilter =
    | Everyone
    | AttrIs(dim: Dim, key: string)              // m.Ward = @k  /  m.Quarters = @k
    | AttrNonEmpty(dim: Dim)                     // m.Ward IS NOT NULL AND m.Ward <> ''
    | AttrIn(dim: Dim, keys: seq<string>)
    | WardInQuarter(ward: Value, quarter: string) // m.Ward = @ward AND m.Quarters = @quarter

  predicate Admits(mf: MemberFilter, m: Member) {
    match mf
    case Everyone => true
    case AttrIs(d, k) => Attr(m, d) == Text(k)
    case AttrNonEmpty(d) => Truthy(Attr(m, d))
    case AttrIn(d, ks) => Attr(m, d).Text? && Attr(m, d).s in ks
    case WardInQuarter(wd, q) => wd.Text? && m.ward == wd && m.quarters == Text(q)
  }

  /** Which ledger rows a query keeps, besides the date window. */
  datatype Selector =
    | AnyEntry                                        // no condition
    | OfPhone(phone: string)                          // phoneno = 'p'
    | OfPhones(phones: seq<string>)                   // phoneno IN (...), or 1=0 when the list is empty
    | OwnedBy(members: seq<Member>, mf: MemberFilter) // joined to Members and filtered on the member row

  predicate Selects(sel: Selector, e: LedgerEntry) {
    match sel
    case AnyEntry => true
    case OfPhone(p) => e.phone == p
    case OfPhones(ps) => e.phone in ps
    case OwnedBy(ms, mf) => Owner(ms, e.phone).Some? && Admits(mf, Owner(ms, e.phone).value)
  }

  predicate Picked(sel: Selector, w: Window, e: LedgerEntry) {
    InWindow(e.transdate, w) && Selects(sel, e)
  }

  function AmountOf(e: LedgerEntry): int {
    e.amount
  }

  function ExpenseAmount(x: Expense): int {
    x.amount
  }

  /** The ledger rows a query returns, in table order (see `PickContents`). */
  function Pick(ledger: seq<LedgerEntry>, sel: Selector, w: Window): (r: seq<LedgerEntry>)
    ensures |r| <= |ledger|
  {
    if |ledger| == 0 then []
    else
      var init, e := ledger[..|ledger| - 1], ledger[|ledger| - 1];
      assert ledger == init + [e];
      var p := Pick(init, sel, w);
      if Picked(sel, w, e) then p + [e] else p
  }

  /** A query returns each in-window selected row as often as the table holds it, and nothing else. */
  lemma {:induction false} PickContents(ledger: seq<LedgerEntry>, sel: Selector, w: Window)
    ensures forall e :: multiset(Pick(ledger, sel, w))[e] == if Picked(sel, w, e) then multiset(ledger)[e] else 0
    ensures forall e :: e in Pick(ledger, sel, w) <==> e in ledger && Picked(sel, w, e)
  {
    var r := Pick(ledger, sel, w);
    if |ledger| > 0 {
      var init, e := ledger[..|ledger| - 1], ledger[|ledger| - 1];
      assert ledger == init + [e];
      PickContents(init, sel, w);
    }
    forall e ensures e in r <==> e in ledger && Picked(sel, w, e) {
      assert e in r <==> multiset(r)[e] > 0;
      assert e in ledger <==> multiset(ledger)[e] > 0;
    }
  }

  /** SUM(amount) over the rows `Pick` returns (zero for no rows). */
  function PickedSum(ledger: seq<LedgerEntry>, sel: Selector, w: Window): int {
    SumBy(Pick(ledger, sel, w), AmountOf)
  }

  /** Appending a ledger row adds its amount to a sum exactly when the query picks it. */
  lemma PickedSumSnoc(ledger: seq<LedgerEntry>, e: LedgerEntry, sel: Selector, w: Window)
    ensures PickedSum(ledger + [e], sel, w) == PickedSum(ledger, sel, w) + (if Picked(sel, w, e) then e.amount else 0)
  {
    assert (ledger + [e])[..|ledger + [e]| - 1] == ledger;
    var p := Pick(ledger, sel, w);
    if Picked(sel, w, e) {
      assert (p + [e])[..|p + [e]| - 1] == p;
    }
  }

  /** A member's in-window total: the ISNULL(SUM(l.amount), 0) of `Members LEFT JOIN memberledger`. */
  function PhoneTotal(ledger: seq<LedgerEntry>, phone: string, w: Window): int {
    PickedSum(ledger, OfPhone(phone), w)
  }

  /** The sum of the in-window totals of the members `mf` admits, in member order. */
  function MembersSum(members: seq<Member>, ledger: seq<LedgerEntry>, w: Window, mf: MemberFilter): int {
    if |members| == 0 then 0
    else (if Admits(mf, members[0]) then PhoneTotal(ledger, members[0].phone, w) else 0)
         + MembersSum(members[1..], ledger, w, mf)
  }

  /** How many member rows with phone `phone` the filter admits. */
  function Count(members: seq<Member>, mf: MemberFilter, phone: string): nat {
    if |members| == 0 then 0
    else (if members[0].phone == phone && Admits(mf, members[0]) then 1 else 0) + Count(members[1..], mf, phone)
  }

  lemma {:induction false} MembersSumEmptyLedger(members: seq<Member>, w: Window, mf: MemberFilter)
    ensures MembersSum(members, [], w, mf) == 0
  {
    if |members| > 0 {
      MembersSumEmptyLedger(members[1..], w, mf);
    }
  }

  lemma {:induction false} MembersSumSnoc(members: seq<Member>, ledger: seq<LedgerEntry>, e: LedgerEntry, w: Window, mf: MemberFilter)
    ensures MembersSum(members, ledger + [e], w, mf)
            == MembersSum(members, ledger, w, mf) + (if InWindow(e.transdate, w) then e.amount * Count(members, mf, e.phone) else 0)
  {
    if |members| > 0 {
      var m, tail := members[0], members[1..];
      var inw := InWindow(e.transdate, w);
      MembersSumSnoc(tail, ledger, e, w, mf);
      var c := Count(tail, mf, e.phone);
      var t, t' := MembersSum(tail, ledger, w, mf), MembersSum(tail, ledger + [e], w, mf);
      assert t' == t + (if inw then e.amount * c else 0);
      PickedSumSnoc(ledger, e, OfPhone(m.phone), w);
      var hit := m.phone == e.phone && Admits(mf, m);
      var h := if Admits(mf, m) then PhoneTotal(ledger, m.phone, w) else 0;
      var h' := if Admits(mf, m) then PhoneTotal(ledger + [e], m.phone, w) else 0;
      assert h' == h + (if inw && hit then e.amount else 0);
      assert MembersSum(members, ledger, w, mf) == h + t;
      assert MembersSum(members, ledger + [e], w, mf) == h' + t';
      assert Count(members, mf, e.phone) == (if hit then 1 else 0) + c;
      SnocArithmetic(e.amount, c, Count(members, mf, e.phone), inw, hit, h, h', t, t');
    }
  }

  /** The arithmetic step of `MembersSumSnoc`, on plain numbers. */
  lemma SnocArithmetic(a: int, c: nat, count: nat, inw: bool, hit: bool, h: int, h': int, t: int, t': int)
    requires t' == t + (if inw then a * c else 0)
    requires h' == h + (if inw && hit then a else 0)
    requires count == (if hit then 1 else 0) + c
    ensures h' + t' == h + t + (if inw then a * count else 0)
  {
    if hit {
      assert a * count == a + a * c;
    }
  }

  lemma {:induction false} CountAbsent(members: seq<Member>, mf: MemberFilter, phone: string)
    requires !HasPhone(members, phone)
    ensures Count(members, mf, phone) == 0
  {
    if |members| > 0 {
      assert members[0].phone != phone;
      assert !HasPhone(members[1..], phone);
      CountAbsent(members[1..], mf, phone);
    }
  }

  /** With the assumed unique PhoneNumber, a phone matches at most one member row: the one the join finds. */
  lemma {:induction false} CountOwner(members: seq<Member>, mf: MemberFilter, phone: string)
    requires UniquePhones(members)
    ensures Count(members, mf, phone) == if Owner(members, phone).Some? && Admits(mf, Owner(members, phone).value) then 1 else 0
  {
    if |members| > 0 {
      var tail := members[1..];
      assert UniquePhones(tail) by {
        forall i, j | 0 <= i < j < |tail| ensures tail[i].phone != tail[j].phone {
          assert tail[i] == members[i + 1] && tail[j] == members[j + 1];
        }
      }
      if members[0].phone == phone {
        assert !HasPhone(tail, phone);
        CountAbsent(tail, mf, phone);
      } else {
        CountOwner(tail, mf, phone);
      }
    }
  }

  /** The summary side and the detail side of a grouped report agree: summing the members' totals
      equals summing the in-window ledger rows whose owning member the filter admits. */
  lemma {:induction false} MembersSumIsJoinSum(members: seq<Member>, ledger: seq<LedgerEntry>, w: Window, mf: MemberFilter)
    requires UniquePhones(members)
    ensures MembersSum(members, ledger, w, mf) == PickedSum(ledger, OwnedBy(members, mf), w)
  {
    if |ledger| == 0 {
      MembersSumEmptyLedger(members, w, mf);
    } else {
      var init, e := ledger[..|ledger| - 1], ledger[|ledger| - 1];
      assert ledger == init + [e];
      MembersSumIsJoinSum(members, init, w, mf);
      MembersSumSnoc(members, init, e, w, mf);
      PickedSumSnoc(init, e, OwnedBy(members, mf), w);
      CountOwner(members, mf, e.phone);
    }
  }

  /** Splitting the admitted members into two disjoint filters splits their sum. */
  lemma {:induction false} MembersSumSplit(members: seq<Member>, ledger: seq<LedgerEntry>, w: Window, mf: MemberFilter, a: MemberFilter, b: MemberFilter)
    requires forall m :: m in members ==> (Admits(mf, m) <==> Admits(a, m) || Admits(b, m))
    requires forall m :: m in members ==> !(Admits(a, m) && Admits(b, m))
    ensures MembersSum(members, ledger, w, mf) == MembersSum(members, ledger, w, a) + MembersSum(members, ledger, w, b)
  {
    if |members| > 0 {
      assert members[0] in members;
      assert forall m :: m in members[1..] ==> m in members;
      MembersSumSplit(members[1..], ledger, w, mf, a, b);
    }
  }

  lemma {:induction false} MembersSumNoneAdmitted(members: seq<Member>, ledger: seq<LedgerEntry>, w: Window, mf: MemberFilter)
    requires forall m :: m in members ==> !Admits(mf, m)
    ensures MembersSum(members, ledger, w, mf) == 0
  {
    if |members| > 0 {
      assert members[0] in members;
      assert forall m :: m in members[1..] ==> m in members;
      MembersSumNoneAdmitted(members[1..], ledger, w, mf);
    }
  }

  /** Filters that admit the same members give the same sum. */
  lemma {:induction false} MembersSumCongruent(members: seq<Member>, ledger: seq<LedgerEntry>, w: Window, a: MemberFilter, b: MemberFilter)
    requires forall m :: m in members ==> (Admits(a, m) <==> Admits(b, m))
    ensures MembersSum(members, ledger, w, a) == MembersSum(members, ledger, w, b)
  {
    if |members| > 0 {
      assert members[0] in members;
      assert forall m :: m in members[1..] ==> m in members;
      MembersSumCongruent(members[1..], ledger, w, a, b);
    }
  }

  /** The total of one group key, as a function over keys. */
  function GroupTotalFn(members: seq<Member>, ledger: seq<LedgerEntry>, w: Window, dim: Dim): string -> int {
    k => MembersSum(members, ledger, w, AttrIs(dim, k))
  }

  /** Summing the totals of distinct group keys equals summing the members whose key is among them. */
  lemma {:induction false} GroupTotalsPartition(members: seq<Member>, ledger: seq<LedgerEntry>, w: Window, dim: Dim, keys: seq<string>)
    requires NoDuplicates(keys)
    ensures SumBy(keys, GroupTotalFn(members, ledger, w, dim)) == MembersSum(members, ledger, w, AttrIn(dim, keys))
  {
    var f := GroupTotalFn(members, ledger, w, dim);
    if |keys| == 0 {
      MembersSumNoneAdmitted(members, ledger, w, AttrIn(dim, keys));
    } else {
      var init, k := keys[..|keys| - 1], keys[|keys| - 1];
      assert keys == init + [k];
      assert NoDuplicates(init);
      assert k !in init;
      GroupTotalsPartition(members, ledger, w, dim, init);
      MembersSumSplit(members, ledger, w, AttrIn(dim, keys), AttrIn(dim, init), AttrIs(dim, k));
      assert f(k) == MembersSum(members, ledger, w, AttrIs(dim, k));
    }
  }

  /** The distinct non-empty values of a grouping, as the report lists them (`IS NOT NULL AND <> ''`). */
  function NonEmptyKeys(members: seq<Member>, dim: Dim): (r: seq<string>)
    ensures forall k :: k in r <==> exists m :: m in members && Truthy(Attr(m, dim)) && Attr(m, dim).s == k
  {
    if |members| == 0 then []
    else
      var rest := NonEmptyKeys(members[1..], dim);
      assert forall m :: m in members <==> m == members[0] || m in members[1..];
      if Truthy(Attr(members[0], dim)) then [Attr(members[0], dim).s] + rest else rest
  }

  /** The sorted distinct group keys of a grouped summary (`GROUP BY ... ORDER BY ...`). */
  function GroupKeys(members: seq<Member>, dim: Dim, le: (string, string) -> bool): (r: seq<string>)
    ensures NoDuplicates(r)
    ensures forall k :: k in r <==> exists m :: m in members && Truthy(Attr(m, dim)) && Attr(m, dim).s == k
  {
    var d := Distinct(NonEmptyKeys(members, dim));
    SortKeepsNoDuplicates(d, le);
    SortSameElements(d, le);
    SortBy(d, le)
  }

  /** The grand total of a grouped summary: every in-window ledger row whose owner has a non-empty
      value of the grouping, counted once. */
  lemma GroupKeysTotal(members: seq<Member>, ledger: seq<LedgerEntry>, w: Window, dim: Dim, le: (string, string) -> bool)
    requires UniquePhones(members)
    ensures SumBy(GroupKeys(members, dim, le), GroupTotalFn(members, ledger, w, dim))
            == PickedSum(ledger, OwnedBy(members, AttrNonEmpty(dim)), w)
  {
    var keys := GroupKeys(members, dim, le);
    GroupTotalsPartition(members, ledger, w, dim, keys);
    forall m | m in members ensures Admits(AttrIn(dim, keys), m) <==> Admits(AttrNonEmpty(dim), m) {
    }
    MembersSumCongruent(members, ledger, w, AttrIn(dim, keys), AttrNonEmpty(dim));
    MembersSumIsJoinSum(members, ledger, w, AttrNonEmpty(dim));
  }
}
