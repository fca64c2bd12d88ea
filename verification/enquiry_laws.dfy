/** What the enquiry reports promise: totals that add up, rows that cover every member, the
    detail groups each mode emits, and the agreement between the different ways a total is queried. */
module EnquiryLaws {
  import opened Wrappers
  import opened Records
  import opened Sorting
  import opened Collation
  import opened DateFilter
  import opened Totals
  import opened EnquiryRows
  import opened Enquiry

  // ---------------------------------------------------------------------------------------------
  // Selecting ledger rows.

  /** Two selectors that agree on every ledger row pick the same rows. */
  lemma {:induction false} PickSelectorsAgree(ledger: seq<LedgerEntry>, a: Selector, b: Selector, w: Window)
    requires forall e :: e in ledger ==> (Selects(a, e) <==> Selects(b, e))
    ensures Pick(ledger, a, w) == Pick(ledger, b, w)
  {
    if |ledger| > 0 {
      var init := ledger[..|ledger| - 1];
      assert forall e :: e in init ==> e in ledger;
      PickSelectorsAgree(init, a, b, w);
    }
  }

  /** A query none of whose rows qualify returns nothing. */
  lemma PickNothing(ledger: seq<LedgerEntry>, sel: Selector, w: Window)
    requires forall e :: e in ledger ==> !Picked(sel, w, e)
    ensures Pick(ledger, sel, w) == []
  {
    PickContents(ledger, sel, w);
  }

  /** A member with no in-window transactions still has a total: zero. */
  lemma PhoneTotalWithoutEntries(ledger: seq<LedgerEntry>, phone: string, w: Window)
    requires forall e :: e in ledger && e.phone == phone ==> !InWindow(e.transdate, w)
    ensures PhoneTotal(ledger, phone, w) == 0
  {
    PickNothing(ledger, OfPhone(phone), w);
  }

  /** `phoneno IN (<the phones of the members the filter admits>)` and the join to Members filtered
      the same way pick the same rows, as long as phone numbers are unique. */
  lemma PhoneListIsJoin(members: seq<Member>, ledger: seq<LedgerEntry>, phones: seq<string>, mf: MemberFilter, w: Window)
    requires UniquePhones(members)
    requires forall p :: p in phones <==> exists m :: m in members && Admits(mf, m) && m.phone == p
    ensures Pick(ledger, OfPhones(phones), w) == Pick(ledger, OwnedBy(members, mf), w)
  {
    forall e | e in ledger ensures Selects(OfPhones(phones), e) <==> Selects(OwnedBy(members, mf), e) {
      var o := Owner(members, e.phone);
      if e.phone in phones {
        var m :| m in members && Admits(mf, m) && m.phone == e.phone;
        var i :| 0 <= i < |members| && members[i] == m;
        assert o == Some(m);
      }
      if o.Some? && Admits(mf, o.value) {
        assert o.value in members;
      }
    }
    PickSelectorsAgree(ledger, OfPhones(phones), OwnedBy(members, mf), w);
  }

  // ---------------------------------------------------------------------------------------------
  // Member dimension.

  /** The member rows add up to the sum of the members' totals. */
  lemma {:induction false} MemberRowsSum(members: seq<Member>, ledger: seq<LedgerEntry>, w: Window)
    ensures SumBy(MemberRowsOf(members, ledger, w), TotalValue) == MembersSum(members, ledger, w, Everyone)
  {
    if |members| > 0 {
      var rows, tail := MemberRowsOf(members, ledger, w), MemberRowsOf(members[1..], ledger, w);
      assert rows == [rows[0]] + tail by {
        assert forall i :: 1 <= i < |rows| ==> rows[i] == tail[i - 1];
      }
      MemberRowsSum(members[1..], ledger, w);
      SumByCons(rows[0], tail, TotalValue);
    }
  }

  /** Member/ALL summary: one row per member ordered by full name (NULL names first), then the ALL
      row, whose total is both the sum of the rows above it and the sum of every in-window ledger row
      that belongs to some member. */
  lemma MemberAllSummary(db: Db, mode: string, w: Window)
    requires UniquePhones(db.members)
    ensures var s := AllMembersReport(db, mode, w).summary;
            var n := |db.members|;
            |s| == n + 1
            && multiset(s[..n]) == multiset(MemberRowsOf(db.members, db.ledger, w))
            && SortedBy(s[..n], NameLe)
            && s[n] == MemberTotal("ALL", Text("ALL"), Some(SumBy(s[..n], TotalValue)))
            && SumBy(s[..n], TotalValue) == PickedSum(db.ledger, OwnedBy(db.members, Everyone), w)
  {
    var rows := MemberRowsOf(db.members, db.ledger, w);
    var sorted := SortBy(rows, NameLe);
    var s := AllMembersReport(db, mode, w).summary;
    assert s == sorted + [MemberTotal("ALL", Text("ALL"), Some(SumBy(sorted, TotalValue)))];
    assert s[..|db.members|] == sorted;
    NameLeIsTotalPreorder();
    SortSorted(rows, NameLe);
    SortKeepsSum(rows, NameLe, TotalValue);
    MemberRowsSum(db.members, db.ledger, w);
    MembersSumIsJoinSum(db.members, db.ledger, w, Everyone);
  }

  /** Every member is listed in the Member/ALL summary with its own total, even without transactions. */
  lemma MemberAllListsEveryMember(db: Db, mode: string, w: Window, m: Member)
    requires m in db.members
    ensures MemberTotal(m.phone, FullName(m), Some(PhoneTotal(db.ledger, m.phone, w))) in AllMembersReport(db, mode, w).summary
  {
    var rows := MemberRowsOf(db.members, db.ledger, w);
    var i :| 0 <= i < |db.members| && db.members[i] == m;
    assert rows[i] in rows;
    assert rows[i] in multiset(SortBy(rows, NameLe));
  }

  /** The amount a detail node carries: a transaction's for a flat row, nothing for a group. */
  function NodeAmount(n: DetailNode): int {
    if n.Flat? then n.row.amount else 0
  }

  /** Flat nodes carry the amounts of their rows. */
  lemma FlatNodesSum(rows: seq<DetailRow>)
    ensures SumBy(FlatNodes(rows), NodeAmount) == SumBy(rows, RowAmount)
  {
    SumByPointwise(FlatNodes(rows), NodeAmount, rows, RowAmount);
  }

  /** The transactions listed by a sorted query, joined to their members, add up to the query's SUM. */
  lemma SortedRowsSum(members: seq<Member>, entries: seq<LedgerEntry>, le: (LedgerEntry, LedgerEntry) -> bool)
    ensures SumBy(DetailRows(members, SortBy(entries, le)), RowAmount) == SumBy(entries, AmountOf)
  {
    DetailRowsSum(members, SortBy(entries, le));
    SortKeepsSum(entries, le, AmountOf);
  }

  /** Member/ALL in detail mode lists every in-window transaction, so its amounts add up to the
      credit total of the Account enquiry for the same window. */
  lemma MemberAllDetailMatchesAccount(db: Db, start: Option<string>, end: Option<string>, w: Window)
    ensures var d := AllMembersReport(db, "detail", w).detail;
            |d| == |Pick(db.ledger, AnyEntry, w)|
            && (forall n :: n in d ==> n.Flat?)
            && SumBy(d, NodeAmount) == AccountReport(db, start, end, w).summary[0].totalCredit
  {
    var entries := Pick(db.ledger, AnyEntry, w);
    var rows := DetailRows(db.members, SortBy(entries, PhoneDateLe));
    AllMembersDetailRows(db, w);
    AccountCredit(db, start, end, w);
    FlatNodesSum(rows);
    SortedRowsSum(db.members, entries, PhoneDateLe);
  }

  lemma AllMembersDetailRows(db: Db, w: Window)
    ensures AllMembersReport(db, "detail", w).detail
            == FlatNodes(DetailRows(db.members, SortBy(Pick(db.ledger, AnyEntry, w), PhoneDateLe)))
  {
  }

  lemma AccountCredit(db: Db, start: Option<string>, end: Option<string>, w: Window)
    ensures AccountReport(db, start, end, w).summary[0].totalCredit == SumBy(Pick(db.ledger, AnyEntry, w), AmountOf)
  {
  }

  /** The rows `phoneno = p` picks, in whatever order, all carry phone `p`. */
  lemma SortedPickOfPhone(ledger: seq<LedgerEntry>, phone: string, w: Window, le: (LedgerEntry, LedgerEntry) -> bool)
    ensures forall e :: e in SortBy(Pick(ledger, OfPhone(phone), w), le) ==> e.phone == phone
  {
    var entries := Pick(ledger, OfPhone(phone), w);
    PickContents(ledger, OfPhone(phone), w);
    assert forall e :: e in SortBy(entries, le) ==> e in multiset(entries);
  }

  /** Joining one member's transactions to Members gives rows with that member's phone and name. */
  lemma RowsOfPhone(members: seq<Member>, entries: seq<LedgerEntry>, phone: string)
    requires forall e :: e in entries ==> e.phone == phone
    ensures forall r :: r in DetailRows(members, entries) ==> r.phoneno == phone && r.fullname == NameOf(members, phone)
  {
    var rows := DetailRows(members, entries);
    forall r | r in rows ensures r.phoneno == phone && r.fullname == NameOf(members, phone) {
      var i :| 0 <= i < |rows| && rows[i] == r;
      assert entries[i] in entries;
    }
  }

  lemma FlatRowsOfPhone(members: seq<Member>, entries: seq<LedgerEntry>, phone: string)
    requires forall e :: e in entries ==> e.phone == phone
    ensures forall n :: n in FlatNodes(DetailRows(members, entries)) ==> n.Flat? && n.row.phoneno == phone
  {
    var rows := DetailRows(members, entries);
    var d := FlatNodes(rows);
    RowsOfPhone(members, entries, phone);
    forall n | n in d ensures n.Flat? && n.row.phoneno == phone {
      var i :| 0 <= i < |d| && d[i] == n;
      assert rows[i] in rows;
    }
  }

  /** A single member: the summary mode lists a row only when the member has in-window
      transactions; any other mode always lists exactly one row, with the same total and with the
      member's name when it is non-empty. */
  lemma SingleMemberDetailTotal(db: Db, param: string, mode: string, w: Window)
    requires mode != "summary"
    ensures var entries := Pick(db.ledger, OfPhone(param), w);
            var name := NameOf(db.members, param);
            OneMemberReport(db, param, mode, w).summary
              == [SingleMemberTotal(param, if |entries| > 0 && Truthy(name) then name else Text(""),
                                    Some(PhoneTotal(db.ledger, param, w)))]
            && OneMemberReport(db, param, "summary", w).summary
              == if |entries| == 0 then [] else [SingleMemberTotal(param, name, Some(PhoneTotal(db.ledger, param, w)))]
  {
    var entries := Pick(db.ledger, OfPhone(param), w);
    var sorted := SortBy(entries, DateDescLe);
    var rows := DetailRows(db.members, sorted);
    SortedPickOfPhone(db.ledger, param, w, DateDescLe);
    RowsOfPhone(db.members, sorted, param);
    if |entries| > 0 {
      assert rows[0] in rows;
    }
    SortedRowsSum(db.members, entries, DateDescLe);
  }

  /** ... and lists the member's in-window transactions, whose amounts add up to that total. */
  lemma SingleMemberDetailRows(db: Db, param: string, mode: string, w: Window)
    requires mode != "summary"
    ensures var d := OneMemberReport(db, param, mode, w).detail;
            |d| == |Pick(db.ledger, OfPhone(param), w)|
            && SumBy(d, NodeAmount) == PhoneTotal(db.ledger, param, w)
            && (forall n :: n in d ==> n.Flat? && n.row.phoneno == param)
  {
    var entries := Pick(db.ledger, OfPhone(param), w);
    var sorted := SortBy(entries, DateDescLe);
    var rows := DetailRows(db.members, sorted);
    assert OneMemberReport(db, param, mode, w).detail == FlatNodes(rows);
    SortedPickOfPhone(db.ledger, param, w, DateDescLe);
    FlatRowsOfPhone(db.members, sorted, param);
    SortedRowsSum(db.members, entries, DateDescLe);
    FlatNodesSum(rows);
  }

  // ---------------------------------------------------------------------------------------------
  // Grouped summaries (ward and quarter).

  /** The group rows add up to the sum of the per-key totals. */
  lemma GroupRowsSum(keys: seq<string>, members: seq<Member>, ledger: seq<LedgerEntry>, w: Window, dim: Dim)
    ensures SumBy(GroupRows(keys, members, ledger, w, dim), TotalValue) == SumBy(keys, GroupTotalFn(members, ledger, w, dim))
  {
    var rows := GroupRows(keys, members, ledger, w, dim);
    var f := GroupTotalFn(members, ledger, w, dim);
    forall i | 0 <= i < |rows| ensures TotalValue(rows[i]) == f(keys[i]) {
    }
    SumByPointwise(rows, TotalValue, keys, f);
  }

  /** The group keys come out in strictly increasing order (`GROUP BY ... ORDER BY ...`). */
  lemma GroupKeysIncreasing(members: seq<Member>, dim: Dim)
    ensures var keys := GroupKeys(members, dim, LexLe);
            forall i, j :: 0 <= i < j < |keys| ==> LexLt(keys[i], keys[j])
  {
    var d := Distinct(NonEmptyKeys(members, dim));
    var keys := GroupKeys(members, dim, LexLe);
    assert keys == SortBy(d, LexLe);
    SortedDistinctIncreasing(d);
    forall i, j | 0 <= i < j < |keys| ensures LexLt(keys[i], keys[j]) {
      assert LexLt(SortBy(d, LexLe)[i], SortBy(d, LexLe)[j]);
    }
  }

  /** Ward/ALL and Quarter/ALL summaries: one row per group key (the distinct non-empty values, see
      `GroupKeys` and `GroupKeysIncreasing`), each carrying the in-window total of the ledger rows
      joined to members with that value, then one more row. */
  lemma GroupSummaryRows(members: seq<Member>, ledger: seq<LedgerEntry>, w: Window, dim: Dim)
    requires UniquePhones(members)
    ensures var s := GroupSummary(members, ledger, w, dim);
            var keys := GroupKeys(members, dim, LexLe);
            |s| == |keys| + 1
            && forall i :: 0 <= i < |keys| ==>
                 GroupKey(s[i]) == keys[i] && s[i].total == Some(PickedSum(ledger, OwnedBy(members, AttrIs(dim, keys[i])), w))
  {
    var keys := GroupKeys(members, dim, LexLe);
    forall i | 0 <= i < |keys| ensures MembersSum(members, ledger, w, AttrIs(dim, keys[i])) == PickedSum(ledger, OwnedBy(members, AttrIs(dim, keys[i])), w) {
      MembersSumIsJoinSum(members, ledger, w, AttrIs(dim, keys[i]));
    }
  }

  /** The last row is ALL; its total is the sum of the rows above it and the total of every
      in-window ledger row whose member has a non-empty value. */
  lemma GroupSummaryAllRow(members: seq<Member>, ledger: seq<LedgerEntry>, w: Window, dim: Dim)
    requires UniquePhones(members)
    ensures var s := GroupSummary(members, ledger, w, dim);
            var n := |s| - 1;
            n >= 0
            && s[n] == GroupRow(dim, "ALL", SumBy(s[..n], TotalValue))
            && SumBy(s[..n], TotalValue) == PickedSum(ledger, OwnedBy(members, AttrNonEmpty(dim)), w)
  {
    var keys := GroupKeys(members, dim, LexLe);
    var rows := GroupRows(keys, members, ledger, w, dim);
    var s := GroupSummary(members, ledger, w, dim);
    assert s[..|rows|] == rows;
    GroupRowsSum(keys, members, ledger, w, dim);
    GroupKeysTotal(members, ledger, w, dim, LexLe);
  }

  /** The keys the detail loops walk: the group keys, minus a real value spelled "ALL", which the
      loops cannot tell apart from the synthetic ALL row. */
  lemma KeysBesidesAllRow(members: seq<Member>, ledger: seq<LedgerEntry>, w: Window, dim: Dim)
    ensures forall k :: k in KeysBesidesAll(GroupSummary(members, ledger, w, dim)) <==> k != "ALL" && k in GroupKeys(members, dim, LexLe)
  {
    var keys := GroupKeys(members, dim, LexLe);
    var rows := GroupRows(keys, members, ledger, w, dim);
    forall i | 0 <= i < |rows| ensures GroupKey(rows[i]) == keys[i] {
    }
    KeysBesidesAllSnoc(rows, keys, GroupRow(dim, "ALL", SumBy(rows, TotalValue)));
  }

  lemma KeysBesidesAllSnoc(rows: seq<SummaryRow>, keys: seq<string>, last: SummaryRow)
    requires |rows| == |keys| && forall i :: 0 <= i < |rows| ==> GroupKey(rows[i]) == keys[i]
    requires GroupKey(last) == "ALL"
    ensures forall k :: k in KeysBesidesAll(rows + [last]) <==> k != "ALL" && k in keys
  {
    var s := rows + [last];
    forall k ensures (exists i :: 0 <= i < |s| && GroupKey(s[i]) == k) <==> k == "ALL" || k in keys {
      if k in keys {
        var i :| 0 <= i < |keys| && keys[i] == k;
        assert GroupKey(s[i]) == k;
      }
      if k == "ALL" {
        assert GroupKey(s[|rows|]) == k;
      }
    }
  }

  // ---------------------------------------------------------------------------------------------
  // Ward dimension.

  /** The ward loop emits, for each ward of the list, a group holding that ward's transactions
      exactly when the ward name is non-empty and it has transactions; and nothing else. */
  lemma {:induction false} WardDetailsEmit(members: seq<Member>, ledger: seq<LedgerEntry>, w: Window, wards: seq<string>)
    ensures forall n :: n in WardDetails(members, ledger, w, wards) ==>
              n.ByWard? && n.group.ward.Text? && n.group.ward.s in wards && n.group.ward.s != ""
              && n.group.members == WardMembers(members, ledger, w, n.group.ward.s) && n.group.members != []
    ensures forall k :: k in wards && k != "" && WardMembers(members, ledger, w, k) != [] ==>
              ByWard(WardGroup(Text(k), WardMembers(members, ledger, w, k))) in WardDetails(members, ledger, w, wards)
  {
    if |wards| > 0 {
      WardDetailsEmit(members, ledger, w, wards[1..]);
      forall k | k in wards && k != "" && WardMembers(members, ledger, w, k) != []
        ensures ByWard(WardGroup(Text(k), WardMembers(members, ledger, w, k))) in WardDetails(members, ledger, w, wards)
      {
        if k != wards[0] {
          assert k in wards[1..];
        }
      }
    }
  }

  /** The ward loop is a filter and a map: the listed wards of the list, in the list's order and
      as often as the list names them, each turned into its group. */
  lemma {:induction false} WardDetailsAreListedWards(members: seq<Member>, ledger: seq<LedgerEntry>, w: Window, wards: seq<string>)
    ensures var ks := Filter(wards, ListedIn(members, ledger, w));
            var d := WardDetails(members, ledger, w, wards);
            |d| == |ks| && forall i :: 0 <= i < |ks| ==> d[i] == WardNode(members, ledger, w, ks[i])
  {
    var keep, f := ListedIn(members, ledger, w), WardNodeOf(members, ledger, w);
    if |wards| > 0 {
      var rest := WardDetails(members, ledger, w, wards[1..]);
      WardDetailsAreListedWards(members, ledger, w, wards[1..]);
      assert [wards[0]] + wards[1..] == wards;
      FilterCons(wards[0], wards[1..], keep);
      FilterMapCons(wards[0], Filter(wards[1..], keep), rest, keep, f);
      assert WardDetails(members, ledger, w, wards) == (if keep(wards[0]) then [f(wards[0])] else []) + rest;
    } else {
      assert Filter(wards, keep) == [];
    }
  }

  function WardNodeOf(members: seq<Member>, ledger: seq<LedgerEntry>, w: Window): string -> DetailNode {
    (ward: string) => WardNode(members, ledger, w, ward)
  }

  /** The keys the detail loops walk are the group keys without "ALL", in summary order. */
  lemma {:induction false} KeysBesidesAllIsFilter(rows: seq<SummaryRow>, keys: seq<string>)
    requires |rows| == |keys| && forall i :: 0 <= i < |rows| ==> GroupKey(rows[i]) == keys[i]
    ensures KeysBesidesAll(rows) == Filter(keys, NotAll())
  {
    if |rows| > 0 {
      assert [keys[0]] + keys[1..] == keys;
      assert forall i :: 0 <= i < |rows[1..]| ==> GroupKey(rows[1..][i]) == keys[1..][i] by {
        forall i | 0 <= i < |rows[1..]| ensures GroupKey(rows[1..][i]) == keys[1..][i] {
          assert rows[1..][i] == rows[i + 1] && keys[1..][i] == keys[i + 1];
        }
      }
      KeysBesidesAllIsFilter(rows[1..], keys[1..]);
      FilterCons(keys[0], keys[1..], NotAll());
    } else {
      assert Filter(keys, NotAll()) == [];
    }
  }

  function NotAll(): string -> bool {
    (k: string) => k != "ALL"
  }

  /** The wards the Ward/ALL loop walks: the ward keys of the summary, sorted and without
      duplicates, minus "ALL". */
  lemma WardLoopKeys(db: Db, w: Window)
    ensures var keys := Filter(GroupKeys(db.members, WardDim, LexLe), NotAll());
            KeysBesidesAll(GroupSummary(db.members, db.ledger, w, WardDim)) == keys
            && NoDuplicates(keys) && SortedBy(keys, LexLe)
  {
    var gk := GroupKeys(db.members, WardDim, LexLe);
    var rows := GroupRows(gk, db.members, db.ledger, w, WardDim);
    var last := GroupRow(WardDim, "ALL", SumBy(rows, TotalValue));
    forall i | 0 <= i < |rows + [last]| ensures GroupKey((rows + [last])[i]) == (gk + ["ALL"])[i] {
    }
    KeysBesidesAllIsFilter(rows + [last], gk + ["ALL"]);
    FilterSnoc(gk, "ALL", NotAll());
    FilterKeepsNoDuplicates(gk, NotAll());
    LexLeIsTotalPreorder();
    SortSorted(Distinct(NonEmptyKeys(db.members, WardDim)), LexLe);
    FilterSorted(gk, NotAll(), LexLe);
  }

  /** Ward/ALL in detail mode: a group for ward `k` appears exactly when some member has ward `k`,
      `k` is not spelled "ALL", and the ward has in-window transactions; each group holds exactly its
      ward's transactions. */
  lemma AllWardsDetail(db: Db, w: Window)
    ensures var d := AllWardsReport(db, "detail", w).detail;
            (forall n :: n in d ==>
               n.ByWard? && n.group.ward.Text? && n.group.ward != Text("ALL")
               && n.group.members == WardMembers(db.members, db.ledger, w, n.group.ward.s))
            && forall k :: ByWard(WardGroup(Text(k), WardMembers(db.members, db.ledger, w, k))) in d
                          <==> k != "ALL" && (exists m :: m in db.members && m.ward == Text(k) && k != "")
                               && WardMembers(db.members, db.ledger, w, k) != []
  {
    var s := GroupSummary(db.members, db.ledger, w, WardDim);
    var wards := KeysBesidesAll(s);
    KeysBesidesAllRow(db.members, db.ledger, w, WardDim);
    WardDetailsEmit(db.members, db.ledger, w, wards);
  }

  /** Ward/ALL in detail mode, in order: one group per listed ward, in the summary's (sorted)
      order of wards, each ward at most once. */
  lemma AllWardsDetailOrder(db: Db, w: Window)
    ensures var d := AllWardsReport(db, "detail", w).detail;
            var ks := Filter(Filter(GroupKeys(db.members, WardDim, LexLe), NotAll()), ListedIn(db.members, db.ledger, w));
            NoDuplicates(ks) && SortedBy(ks, LexLe)
            && |d| == |ks| && forall i :: 0 <= i < |ks| ==> d[i] == WardNode(db.members, db.ledger, w, ks[i])
  {
    var keys := Filter(GroupKeys(db.members, WardDim, LexLe), NotAll());
    WardLoopKeys(db, w);
    WardDetailsAreListedWards(db.members, db.ledger, w, keys);
    FilterKeepsNoDuplicates(keys, ListedIn(db.members, db.ledger, w));
    FilterSorted(keys, ListedIn(db.members, db.ledger, w), LexLe);
  }

  /** The transactions a ward group lists add up to that ward's summary total. */
  lemma WardMembersSum(members: seq<Member>, ledger: seq<LedgerEntry>, w: Window, ward: string)
    requires UniquePhones(members)
    ensures SumBy(WardMembers(members, ledger, w, ward), RowAmount) == PickedSum(ledger, OwnedBy(members, AttrIs(WardDim, ward)), w)
  {
    SortedRowsSum(members, Pick(ledger, OwnedBy(members, AttrIs(WardDim, ward)), w), PhoneDateLe);
  }

  /** A single ward: the phone-list query returns what the ward join of Ward/ALL returns, so the
      total agrees with that ward's Ward/ALL row, except that it is NULL when no transaction
      qualifies; the detail holds the same transactions the Ward/ALL loop lists for the ward. */
  lemma OneWardIsJoin(db: Db, ward: string, mode: string, w: Window)
    requires UniquePhones(db.members)
    ensures var r := OneWardReport(db, ward, mode, w);
            var entries := Pick(db.ledger, OwnedBy(db.members, AttrIs(WardDim, ward)), w);
            r.summary == [WardTotal(ward, if entries == [] then None else Some(PickedSum(db.ledger, OwnedBy(db.members, AttrIs(WardDim, ward)), w)))]
            && (mode == "detail" ==> r.detail == [ByWard(WardGroup(Text(ward), WardMembers(db.members, db.ledger, w, ward)))])
            && (mode != "detail" ==> r.detail == [])
  {
    var phones := PhonesWhere(db.members, WardDim, ward);
    PhoneListIsJoin(db.members, db.ledger, phones, AttrIs(WardDim, ward), w);
  }

  // ---------------------------------------------------------------------------------------------
  // Quarter dimension.

  /** A Quarter/ALL ward group: a NULL ward's group is always empty (`m.Ward = NULL` matches no
      row); a named ward's group lists the in-window transactions of the quarter's members in that
      ward. */
  lemma QuarterWardGroupContents(members: seq<Member>, ledger: seq<LedgerEntry>, w: Window, quarter: string, ward: Value)
    requires UniquePhones(members)
    ensures var g := QuarterWardGroup(members, ledger, w, quarter, ward);
            (ward.Null? ==> g.members == [])
            && SumBy(g.members, RowAmount) == MembersSum(members, ledger, w, WardInQuarter(ward, quarter))
  {
    var entries := Pick(ledger, OwnedBy(members, WardInQuarter(ward, quarter)), w);
    if ward.Null? {
      PickNothing(ledger, OwnedBy(members, WardInQuarter(ward, quarter)), w);
    }
    SortedRowsSum(members, entries, PhoneDateLe);
    MembersSumIsJoinSum(members, ledger, w, WardInQuarter(ward, quarter));
  }

  /** Some group of `gs` is headed by ward `v`. */
  predicate HasGroupFor(gs: seq<WardGroup>, v: Value) {
    exists j :: 0 <= j < |gs| && gs[j].ward == v
  }

  /** Some member of the quarter has ward `v` (NULL included). */
  predicate QuarterHasWard(members: seq<Member>, quarter: string, v: Value) {
    exists m :: m in members && m.quarters == Text(quarter) && m.ward == v
  }

  /** The ward groups of one Quarter/ALL node: every ward (NULL included) of the quarter's
      members exactly once, a ward with no transactions included; with unique phones, each group
      adds up to the in-window transactions of the quarter's members in that ward. */
  lemma QuarterNodeGroups(members: seq<Member>, ledger: seq<LedgerEntry>, w: Window, quarter: string)
    ensures var gs := QuarterWardGroups(members, ledger, w, quarter, QuarterWards(members, quarter));
            (forall j, k :: 0 <= j < k < |gs| ==> gs[j].ward != gs[k].ward)
            && (forall v :: HasGroupFor(gs, v) <==> QuarterHasWard(members, quarter, v))
    ensures var gs := QuarterWardGroups(members, ledger, w, quarter, QuarterWards(members, quarter));
            UniquePhones(members) ==>
              forall j :: 0 <= j < |gs| ==>
                (gs[j].ward.Null? ==> gs[j].members == [])
                && SumBy(gs[j].members, RowAmount) == MembersSum(members, ledger, w, WardInQuarter(gs[j].ward, quarter))
  {
    var ws := QuarterWards(members, quarter);
    var gs := QuarterWardGroups(members, ledger, w, quarter, ws);
    forall v ensures HasGroupFor(gs, v) <==> v in ws {
      if v in ws {
        var j :| 0 <= j < |ws| && ws[j] == v;
        assert gs[j].ward == v;
      }
    }
    if UniquePhones(members) {
      forall j | 0 <= j < |gs|
        ensures (gs[j].ward.Null? ==> gs[j].members == [])
                && SumBy(gs[j].members, RowAmount) == MembersSum(members, ledger, w, WardInQuarter(gs[j].ward, quarter))
      {
        QuarterWardGroupContents(members, ledger, w, quarter, ws[j]);
      }
    }
  }

  /** Quarter/ALL in detail mode: one node per summary row other than ALL (see
      `KeysBesidesAllRow`), in summary order. Each node lists every ward (NULL included) of that
      quarter's members exactly once, even a ward with no transactions, and with unique phones each
      ward's group adds up to that ward's members within the quarter. */
  lemma AllQuartersDetail(db: Db, w: Window)
    ensures var r := AllQuartersReport(db, "detail", w);
            var quarters := KeysBesidesAll(r.summary);
            |r.detail| == |quarters|
            && forall i :: 0 <= i < |quarters| ==>
                 var gs := r.detail[i].wards;
                 r.detail[i].ByQuarter? && r.detail[i].quarter == quarters[i]
                 && (forall j, k :: 0 <= j < k < |gs| ==> gs[j].ward != gs[k].ward)
                 && (forall v :: HasGroupFor(gs, v) <==> QuarterHasWard(db.members, quarters[i], v))
    ensures var r := AllQuartersReport(db, "detail", w);
            var quarters := KeysBesidesAll(r.summary);
            UniquePhones(db.members) ==>
              forall i, j :: 0 <= i < |quarters| && 0 <= j < |r.detail[i].wards| ==>
                var g := r.detail[i].wards[j];
                (g.ward.Null? ==> g.members == [])
                && SumBy(g.members, RowAmount) == MembersSum(db.members, db.ledger, w, WardInQuarter(g.ward, quarters[i]))
  {
    var r := AllQuartersReport(db, "detail", w);
    var quarters := KeysBesidesAll(r.summary);
    forall i | 0 <= i < |quarters| {
      QuarterNodeGroups(db.members, db.ledger, w, quarters[i]);
    }
  }

  /** The `phonesByWard` reduce: a key is present exactly when some row's ward has it, and it
      holds the phones of those rows, in row order. */
  lemma {:induction false} PhonesByWardContents(rows: seq<Member>)
    ensures forall k :: k in PhonesByWard(rows) <==> exists m :: m in rows && KeyOf(m.ward) == k
    ensures forall k :: k in PhonesByWard(rows) ==> PhonesByWard(rows)[k] == PhonesWithKey(rows, k)
  {
    if |rows| > 0 {
      var init, row := rows[..|rows| - 1], rows[|rows| - 1];
      assert rows == init + [row];
      PhonesByWardContents(init);
      forall k ensures k in PhonesByWard(rows) <==> exists m :: m in rows && KeyOf(m.ward) == k {
        if k in PhonesByWard(init) {
          var m :| m in init && KeyOf(m.ward) == k;
          assert m in rows;
        }
        if exists m :: m in rows && KeyOf(m.ward) == k {
          var m :| m in rows && KeyOf(m.ward) == k;
          assert m in init || m == row;
        }
      }
      if KeyOf(row.ward) !in PhonesByWard(init) {
        PhonesWithKeyAbsent(init, KeyOf(row.ward));
      }
    }
  }

  lemma {:induction false} PhonesWithKeyAbsent(rows: seq<Member>, k: string)
    requires forall m :: m in rows ==> KeyOf(m.ward) != k
    ensures PhonesWithKey(rows, k) == []
  {
    if |rows| > 0 {
      var init := rows[..|rows| - 1];
      assert forall m :: m in init ==> m in rows;
      assert rows[|rows| - 1] in rows;
      PhonesWithKeyAbsent(init, k);
    }
  }

  /** Every ward the quarter's DISTINCT query returns has at least one phone under its key, so the
      single-quarter loop never takes its `continue`. */
  lemma QuarterWardsHavePhones(members: seq<Member>, quarter: string)
    ensures var byWard := PhonesByWard(InQuarter(members, quarter));
            forall v :: v in QuarterWards(members, quarter) ==> KeyOf(v) in byWard && byWard[KeyOf(v)] != []
  {
    var inq := InQuarter(members, quarter);
    PhonesByWardContents(inq);
    forall v | v in QuarterWards(members, quarter)
      ensures KeyOf(v) in PhonesByWard(inq) && PhonesByWard(inq)[KeyOf(v)] != []
    {
      var m :| m in members && m.quarters == Text(quarter) && m.ward == v;
      assert m in inq;
      assert m.phone in PhonesWithKey(inq, KeyOf(v));
    }
  }

  /** The single-quarter loop is a filter and a map: the wards with phones under their key, in
      the DISTINCT query's order, each turned into the group of those phones. */
  lemma {:induction false} KeyedWardGroupsAreKeptWards(members: seq<Member>, ledger: seq<LedgerEntry>, w: Window, byWard: map<string, seq<string>>, wards: seq<Value>)
    ensures var ks := Filter(wards, HasPhonesIn(byWard));
            var r := KeyedWardGroups(members, ledger, w, byWard, wards);
            |r| == |ks| && forall i :: 0 <= i < |ks| ==> r[i] == KeyedGroupOf(members, ledger, w, byWard)(ks[i])
  {
    var keep, f := HasPhonesIn(byWard), KeyedGroupOf(members, ledger, w, byWard);
    if |wards| > 0 {
      var rest := KeyedWardGroups(members, ledger, w, byWard, wards[1..]);
      KeyedWardGroupsAreKeptWards(members, ledger, w, byWard, wards[1..]);
      assert [wards[0]] + wards[1..] == wards;
      FilterCons(wards[0], wards[1..], keep);
      FilterMapCons(wards[0], Filter(wards[1..], keep), rest, keep, f);
      assert KeyedWardGroups(members, ledger, w, byWard, wards) == (if keep(wards[0]) then [f(wards[0])] else []) + rest;
    } else {
      assert Filter(wards, keep) == [];
    }
  }

  /** When no ward is skipped, the single-quarter loop yields one group per ward, in order, and
      the group of ward `v` lists the transactions of the phones under `v`'s key. */
  lemma KeyedWardGroupsContents(members: seq<Member>, ledger: seq<LedgerEntry>, w: Window, byWard: map<string, seq<string>>, wards: seq<Value>)
    requires forall v :: v in wards ==> KeyOf(v) in byWard && byWard[KeyOf(v)] != []
    ensures var r := KeyedWardGroups(members, ledger, w, byWard, wards);
            |r| == |wards| && forall i :: 0 <= i < |wards| ==> r[i] == PhonesGroup(members, ledger, w, wards[i], byWard[KeyOf(wards[i])])
  {
    KeyedWardGroupsAreKeptWards(members, ledger, w, byWard, wards);
    FilterAll(wards, HasPhonesIn(byWard));
  }

  /** A single quarter: the total is that of the ledger rows joined to the quarter's members (NULL
      when none qualifies, where Quarter/ALL reports 0), and the detail holds one group per
      distinct ward of the quarter, in the DISTINCT query's order, each listing the transactions
      of the phones under that ward's key. */
  lemma OneQuarterMeaning(db: Db, quarter: string, mode: string, w: Window)
    requires UniquePhones(db.members)
    ensures var r := OneQuarterReport(db, quarter, mode, w);
            var entries := Pick(db.ledger, OwnedBy(db.members, AttrIs(QuarterDim, quarter)), w);
            var wards := QuarterWards(db.members, quarter);
            var byWard := PhonesByWard(InQuarter(db.members, quarter));
            r.summary == [QuarterTotal(quarter, if entries == [] then None else Some(PickedSum(db.ledger, OwnedBy(db.members, AttrIs(QuarterDim, quarter)), w)))]
            && (mode != "detail" ==> r.detail == [])
            && (mode == "detail" ==>
                  |r.detail| == 1 && r.detail[0].ByQuarter? && r.detail[0].quarter == quarter
                  && |r.detail[0].wards| == |wards|
                  && forall i :: 0 <= i < |wards| ==>
                       KeyOf(wards[i]) in byWard
                       && r.detail[0].wards[i] == PhonesGroup(db.members, db.ledger, w, wards[i], byWard[KeyOf(wards[i])]))
  {
    var inq := InQuarter(db.members, quarter);
    PhoneListIsJoin(db.members, db.ledger, PhonesOf(inq), AttrIs(QuarterDim, quarter), w);
    QuarterWardsHavePhones(db.members, quarter);
    KeyedWardGroupsContents(db.members, db.ledger, w, PhonesByWard(inq), QuarterWards(db.members, quarter));
  }

  /** Under a named ward's key sit exactly the phones of the quarter's members in that ward. */
  lemma PhonesWithKeyOfQuarter(members: seq<Member>, quarter: string, ward: string)
    requires ward != "null"
    ensures forall p :: p in PhonesWithKey(InQuarter(members, quarter), ward)
                        <==> exists m :: m in members && Admits(WardInQuarter(Text(ward), quarter), m) && m.phone == p
  {
    var inq := InQuarter(members, quarter);
    var phones := PhonesWithKey(inq, ward);
    forall p ensures p in phones <==> exists m :: m in members && Admits(WardInQuarter(Text(ward), quarter), m) && m.phone == p {
      if p in phones {
        var m :| m in inq && KeyOf(m.ward) == ward && m.phone == p;
        assert m.ward == Text(ward);
      }
      if exists m :: m in members && Admits(WardInQuarter(Text(ward), quarter), m) && m.phone == p {
        var m :| m in members && Admits(WardInQuarter(Text(ward), quarter), m) && m.phone == p;
        assert m in inq;
      }
    }
  }

  /** For a named ward (other than one literally named "null"), the single-quarter group and the
      Quarter/ALL group list the same transactions. */
  lemma OneQuarterGroupIsJoin(members: seq<Member>, ledger: seq<LedgerEntry>, w: Window, quarter: string, ward: string)
    requires UniquePhones(members)
    requires ward != "null"
    requires Text(ward) in QuarterWards(members, quarter)
    ensures var byWard := PhonesByWard(InQuarter(members, quarter));
            ward in byWard
            && PhonesGroup(members, ledger, w, Text(ward), byWard[ward]) == QuarterWardGroup(members, ledger, w, quarter, Text(ward))
  {
    var inq := InQuarter(members, quarter);
    PhonesByWardContents(inq);
    QuarterWardsHavePhones(members, quarter);
    PhonesWithKeyOfQuarter(members, quarter, ward);
    PhoneListIsJoin(members, ledger, PhonesWithKey(inq, ward), WardInQuarter(Text(ward), quarter), w);
  }

  /** A quarter's NULL ward: the single-quarter view files the phones of the quarter's members with
      no ward under the key "null" and lists their transactions, while Quarter/ALL's group for that
      same ward is always empty (`QuarterWardGroupContents`). */
  lemma OneQuarterNullWard(members: seq<Member>, quarter: string, m: Member)
    requires m in members && m.quarters == Text(quarter) && m.ward == Null
    ensures var byWard := PhonesByWard(InQuarter(members, quarter));
            Null in QuarterWards(members, quarter) && "null" in byWard && m.phone in byWard["null"]
  {
    var inq := InQuarter(members, quarter);
    assert m in inq;
    PhonesByWardContents(inq);
    var byWard := PhonesByWard(inq);
    assert KeyOf(m.ward) == "null";
    assert "null" in byWard;
    assert m.phone in PhonesWithKey(inq, "null");
  }

  // ---------------------------------------------------------------------------------------------
  // Account dimension.

  /** When every ledger row belongs to a member, the Account credit equals the total of the
      Member/ALL row for the same window. */
  lemma AccountCreditIsMemberTotal(db: Db, start: Option<string>, end: Option<string>, w: Window)
    requires UniquePhones(db.members)
    requires forall e :: e in db.ledger ==> HasPhone(db.members, e.phone)
    ensures AccountReport(db, start, end, w).summary[0].totalCredit == PickedSum(db.ledger, OwnedBy(db.members, Everyone), w)
  {
    PickSelectorsAgree(db.ledger, AnyEntry, OwnedBy(db.members, Everyone), w);
  }
}
