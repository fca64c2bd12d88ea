/** The shapes an enquiry returns (`{summary, detail}` of GET /admin/enquiry) and the orders its
    queries sort by. */
module EnquiryRows {
  import opened Wrappers
  import opened Records
  import opened Sorting
  import opened Collation
  import opened Dates
  import opened Totals

  /** One summary row. `total` is `None` where the query's SUM has no rows and yields SQL NULL. */
  datatype SummaryRow =
    | MemberTotal(phoneNumber: string, fullname: Value, total: Option<int>)  // {PhoneNumber, fullname, total}
    | SingleMemberTotal(phoneno: string, fullname: Value, total: Option<int>)// {phoneno, fullname, total}
    | WardTotal(ward: string, total: Option<int>)                            // {Ward, total}
    | QuartersTotal(quarters: string, total: Option<int>)                    // {Quarters, total}
    | QuarterTotal(quarter: string, total: Option<int>)                      // {Quarter, total}
    | AccountTotals(startDate: string, endDate: string, totalCredit: int, totalDebit: int)

  /** One transaction as the detail queries select it: phoneno, fullname, FORMAT(transdate, 'yyyy-MM-dd'), amount, remark. */
  datatype DetailRow = DetailRow(phoneno: string, fullname: Value, transdate: string, amount: int, remark: Value)

  /** `{ward, members}`; the ward is NULL when a quarter's member rows carry no ward. */
  datatype WardGroup = WardGroup(ward: Value, members: seq<DetailRow>)

  datatype DetailNode =
    | Flat(row: DetailRow)                                 // member enquiries
    | ByWard(group: WardGroup)                             // ward enquiries
    | ByQuarter(quarter: string, wards: seq<WardGroup>)    // quarter enquiries

  datatype Report = Report(summary: seq<SummaryRow>, detail: seq<DetailNode>)

  /** `Number(row.total)`: a NULL total counts as 0. */
  function TotalValue(r: SummaryRow): int {
    if r.AccountTotals? then 0 else r.total.GetOr(0)
  }

  function RowAmount(r: DetailRow): int {
    r.amount
  }

  /** The detail row a ledger entry becomes once joined to its member. */
  function ToDetail(members: seq<Member>, e: LedgerEntry): DetailRow {
    DetailRow(e.phone, NameOf(members, e.phone), DateText(e.transdate), e.amount, e.remark)
  }

  function DetailRows(members: seq<Member>, entries: seq<LedgerEntry>): (r: seq<DetailRow>)
    ensures |r| == |entries|
    ensures forall i :: 0 <= i < |entries| ==> r[i] == ToDetail(members, entries[i])
  {
    seq(|entries|, i requires 0 <= i < |entries| => ToDetail(members, entries[i]))
  }

  /** Converting entries to rows keeps their amounts. */
  lemma {:induction false} DetailRowsSum(members: seq<Member>, entries: seq<LedgerEntry>)
    ensures SumBy(DetailRows(members, entries), RowAmount) == SumBy(entries, AmountOf)
  {
    var rows := DetailRows(members, entries);
    forall i | 0 <= i < |rows| ensures RowAmount(rows[i]) == AmountOf(entries[i]) {
      assert rows[i] == ToDetail(members, entries[i]);
    }
    SumByPointwise(rows, RowAmount, entries, AmountOf);
  }

  /** SUM(amount) without ISNULL: NULL over no rows. */
  function SumOrNull(entries: seq<LedgerEntry>): (r: Option<int>)
    ensures r.None? <==> |entries| == 0
  {
    if |entries| == 0 then None else Some(SumBy(entries, AmountOf))
  }

  // ---------------------------------------------------------------------------------------------
  // Orders.

  /** ORDER BY l.phoneno, l.transdate DESC. */
  predicate PhoneDateLe(a: LedgerEntry, b: LedgerEntry) {
    LexLt(a.phone, b.phone) || (a.phone == b.phone && DateLe(b.transdate, a.transdate))
  }

  /** ORDER BY l.transdate DESC. */
  predicate DateDescLe(a: LedgerEntry, b: LedgerEntry) {
    DateLe(b.transdate, a.transdate)
  }

  /** ORDER BY fullname, on the rows that carry one. */
  predicate NameLe(a: SummaryRow, b: SummaryRow) {
    ValueLe(NameKey(a), NameKey(b))
  }

  function NameKey(r: SummaryRow): Value {
    if r.MemberTotal? || r.SingleMemberTotal? then r.fullname else Null
  }

  lemma DateLeTotalPreorder()
    ensures forall a, b :: DateLe(a, b) || DateLe(b, a)
    ensures forall a, b, c :: DateLe(a, b) && DateLe(b, c) ==> DateLe(a, c)
  {
  }

  lemma PhoneDateLeIsTotalPreorder()
    ensures TotalPreorder(PhoneDateLe)
  {
    DateLeTotalPreorder();
    forall a, b ensures PhoneDateLe(a, b) || PhoneDateLe(b, a) {
      LexLeTotal(a.phone, b.phone);
    }
    forall a, b, c | PhoneDateLe(a, b) && PhoneDateLe(b, c) ensures PhoneDateLe(a, c) {
      if a.phone != b.phone || b.phone != c.phone {
        LexLeReflexive(b.phone);
        assert LexLe(a.phone, b.phone) && LexLe(b.phone, c.phone);
        LexLeTransitive(a.phone, b.phone, c.phone);
        if a.phone == c.phone {
          LexLeAntisymmetric(a.phone, b.phone);
        }
      }
    }
  }

  lemma DateDescLeIsTotalPreorder()
    ensures TotalPreorder(DateDescLe)
  {
    DateLeTotalPreorder();
  }

  lemma NameLeIsTotalPreorder()
    ensures TotalPreorder(NameLe)
  {
    ValueLeIsTotalPreorder();
  }
}
