/** Two read-only member endpoints of server.js: a member's total for one calendar month
    (GET /api/member/ledger-entry/monthly-total) and the ledger rows of one ward or quarter
    (GET /api/enquiry/:type/:value). */
module MemberApi {
  import opened Wrappers
  import opened Records
  import opened Sorting
  import opened Decimal
  import opened Dates
  import opened DateFilter
  import opened Totals

  // ---------------------------------------------------------------------------------------------
  // Monthly total.

  const MissingMonth: string := "Missing month or phone number"

  /** `phoneno = @phoneno AND FORMAT(transdate, 'yyyy-MM') = @month`. */
  function InMonth(phone: string, month: string): LedgerEntry -> bool {
    (e: LedgerEntry) => e.phone == phone && MonthText(e.transdate) == month
  }

  /** The endpoint: both query parameters are required, and the NULL sum of no rows is reported
      as 0 (`totalAmount || 0`). */
  function MonthlyTotal(ledger: seq<LedgerEntry>, month: Option<string>, phone: Option<string>): (r: Outcome<int>)
    ensures r.Fail? <==> !Given(month) || !Given(phone)
    ensures r.Fail? ==> r == Fail(400, MissingMonth)
    ensures r.Ok? && (forall i :: 0 <= i < |ledger| ==> !InMonth(phone.value, month.value)(ledger[i])) ==> r.value == 0
  {
    if !Given(month) || !Given(phone) then Fail(400, MissingMonth)
    else
      var rows := Filter(ledger, InMonth(phone.value, month.value));
      assert |rows| > 0 ==> rows[0] in rows;
      Ok(SumBy(rows, AmountOf))
  }

  /** The days of calendar month `m` of year `y`, as a date window. */
  function MonthWindow(y: nat, m: nat): (w: Window)
    ensures forall d :: ValidDate(d) ==> (InWindow(d, w) <==> d.year == y && d.month == m)
  {
    var w := Window(Some(Date(y, m, 1)), Some(Date(y, m, DaysInMonth(y, m))));
    assert forall d :: ValidDate(d) ==> (InWindow(d, w) <==> d.year == y && d.month == m);
    w
  }

  /** A sum over a filtered ledger is the sum the matching query picks, when the filter and the
      query agree on every row. */
  lemma {:induction false} FilterSumIsPickedSum(ledger: seq<LedgerEntry>, keep: LedgerEntry -> bool, sel: Selector, w: Window)
    requires forall e :: e in ledger ==> (keep(e) <==> Picked(sel, w, e))
    ensures SumBy(Filter(ledger, keep), AmountOf) == PickedSum(ledger, sel, w)
  {
    if |ledger| > 0 {
      var init, e := ledger[..|ledger| - 1], ledger[|ledger| - 1];
      assert ledger == init + [e];
      assert forall x :: x in init ==> x in ledger;
      FilterSumIsPickedSum(init, keep, sel, w);
      FilterSnoc(init, e, keep);
      PickedSumSnoc(init, e, sel, w);
      SumByAppend(Filter(init, keep), [e], AmountOf);
    }
  }

  /** For a valid date, matching a month's `yyyy-MM` text is lying in that month's window. */
  lemma InMonthIsWindow(e: LedgerEntry, phone: string, y: nat, m: nat)
    requires ValidDate(e.transdate) && ValidDate(Date(y, m, 1))
    ensures InMonth(phone, MonthText(Date(y, m, 1)))(e) <==> Picked(OfPhone(phone), MonthWindow(y, m), e)
  {
    MonthTextInjective(e.transdate, Date(y, m, 1));
  }

  lemma MonthTextGiven(d: Date)
    ensures Given(Some(MonthText(d)))
  {
  }

  /** The `yyyy-MM` text of a calendar month asks for exactly that month: the endpoint reports the
      member's total over the month's days, the same figure the admin enquiry gives for that window. */
  lemma MonthlyTotalIsCalendarMonth(ledger: seq<LedgerEntry>, phone: string, y: nat, m: nat)
    requires |phone| > 0 && ValidDate(Date(y, m, 1))
    requires forall e :: e in ledger ==> ValidDate(e.transdate)
    ensures MonthlyTotal(ledger, Some(MonthText(Date(y, m, 1))), Some(phone)) == Ok(PhoneTotal(ledger, phone, MonthWindow(y, m)))
  {
    var month := MonthText(Date(y, m, 1));
    var w := MonthWindow(y, m);
    MonthTextGiven(Date(y, m, 1));
    forall e | e in ledger ensures InMonth(phone, month)(e) <==> Picked(OfPhone(phone), w, e) {
      InMonthIsWindow(e, phone, y, m);
    }
    FilterSumIsPickedSum(ledger, InMonth(phone, month), OfPhone(phone), w);
    assert MonthlyTotal(ledger, Some(month), Some(phone)) == Ok(SumBy(Filter(ledger, InMonth(phone, month)), AmountOf));
  }

  // ---------------------------------------------------------------------------------------------
  // Ward / quarter enquiry.

  const InvalidType: string := "Invalid filter type"
  const EnquiryFailed: string := "Server error during enquiry"

  /** `['ward', 'quarters'].includes(type)`, and the member column it selects. */
  function FilterDim(kind: string): (r: Option<Dim>)
    ensures r.Some? <==> kind == "ward" || kind == "quarters"
    ensures r == Some(WardDim) <==> kind == "ward"
  {
    if kind == "ward" then Some(WardDim)
    else if kind == "quarters" then Some(QuarterDim)
    else None
  }

  /** The text appended to the query: one condition per truthy bound, lower bound first. */
  function DateConditions(from: Option<string>, to: Option<string>): (r: string)
    ensures r == "" <==> !Given(from) && !Given(to)
  {
    (if Given(from) then " AND ml.transdate >= @from " else "")
    + (if Given(to) then " AND ml.transdate <= @to " else "")
  }

  /** A row of the result: the ledger row (`ml.*`) and the owner's ward (`m.ward`). */
  datatype EnquiryRow = EnquiryRow(entry: LedgerEntry, ward: Value)

  function WithWard(members: seq<Member>, e: LedgerEntry): EnquiryRow {
    EnquiryRow(e, WardOrNull(Owner(members, e.phone)))
  }

  function WardOrNull(o: Option<Member>): Value {
    if o.Some? then o.value.ward else Null
  }

  /** The endpoint. An unknown type is a 400. The bounds are bound as `sql.Date` values, which the
      driver converts with JavaScript's date parsing. The model reads only valid ISO `yyyy-MM-dd`
      bounds and answers 500 for any other bound. */
  function ApiEnquiry(db: Db, kind: string, value: string, from: Option<string>, to: Option<string>): (r: Outcome<seq<EnquiryRow>>)
    ensures r == Fail(400, InvalidType) <==> FilterDim(kind).None?
    ensures r == Fail(500, EnquiryFailed) <==> FilterDim(kind).Some? && ResolveWindow(from, to).None?
    ensures r.Ok? <==> FilterDim(kind).Some? && ResolveWindow(from, to).Some?
    ensures r.Ok? ==> forall i :: 0 <= i < |r.value| ==>
              r.value[i].entry in db.ledger
              && HasPhone(db.members, r.value[i].entry.phone)
              && Attr(Owner(db.members, r.value[i].entry.phone).value, FilterDim(kind).value) == Text(value)
              && InWindow(r.value[i].entry.transdate, ResolveWindow(from, to).value)
              && r.value[i].ward == Owner(db.members, r.value[i].entry.phone).value.ward
  {
    match FilterDim(kind)
    case None => Fail(400, InvalidType)
    case Some(dim) =>
      match ResolveWindow(from, to)
      case None => Fail(500, EnquiryFailed)
      case Some(w) =>
        var picked := Pick(db.ledger, OwnedBy(db.members, AttrIs(dim, value)), w);
        PickContents(db.ledger, OwnedBy(db.members, AttrIs(dim, value)), w);
        assert forall i :: 0 <= i < |picked| ==> picked[i] in picked;
        Ok(seq(|picked|, i requires 0 <= i < |picked| => WithWard(db.members, picked[i])))
  }

  /** The amounts an enquiry returns. */
  function Amounts(rows: seq<EnquiryRow>): seq<LedgerEntry> {
    seq(|rows|, i requires 0 <= i < |rows| => rows[i].entry)
  }

  /** The ledger rows a successful enquiry lists. The query has no `ORDER BY`; the model returns
      them in table order. */
  lemma ApiEnquiryRows(db: Db, kind: string, value: string, from: Option<string>, to: Option<string>)
    requires ApiEnquiry(db, kind, value, from, to).Ok?
    ensures Amounts(ApiEnquiry(db, kind, value, from, to).value)
            == Pick(db.ledger, OwnedBy(db.members, AttrIs(FilterDim(kind).value, value)), ResolveWindow(from, to).value)
  {
  }

  /** The rows the member endpoint lists add up to the admin enquiry's total for the same ward or
      quarter and window: the sum over the members of that ward or quarter. */
  lemma ApiEnquiryMatchesMembersSum(db: Db, kind: string, value: string, from: Option<string>, to: Option<string>)
    requires UniquePhones(db.members)
    requires ApiEnquiry(db, kind, value, from, to).Ok?
    ensures SumBy(Amounts(ApiEnquiry(db, kind, value, from, to).value), AmountOf)
            == MembersSum(db.members, db.ledger, ResolveWindow(from, to).value, AttrIs(FilterDim(kind).value, value))
  {
    ApiEnquiryRows(db, kind, value, from, to);
    MembersSumIsJoinSum(db.members, db.ledger, ResolveWindow(from, to).value, AttrIs(FilterDim(kind).value, value));
  }

  /** Every in-window ledger row of a member of that ward or quarter is listed. */
  lemma ApiEnquiryComplete(db: Db, kind: string, value: string, from: Option<string>, to: Option<string>, e: LedgerEntry)
    requires ApiEnquiry(db, kind, value, from, to).Ok?
    requires e in db.ledger && HasPhone(db.members, e.phone)
    requires Attr(Owner(db.members, e.phone).value, FilterDim(kind).value) == Text(value)
    requires InWindow(e.transdate, ResolveWindow(from, to).value)
    ensures e in Amounts(ApiEnquiry(db, kind, value, from, to).value)
  {
    var sel := OwnedBy(db.members, AttrIs(FilterDim(kind).value, value));
    var w := ResolveWindow(from, to).value;
    ApiEnquiryRows(db, kind, value, from, to);
    assert Picked(sel, w, e);
    PickContents(db.ledger, sel, w);
  }

  /** The appended conditions and the window agree: no condition exactly when nothing is excluded. */
  lemma DateConditionsDescribeWindow(from: Option<string>, to: Option<string>, w: Window)
    requires ResolveWindow(from, to) == Some(w)
    ensures DateConditions(from, to) == "" <==> w == Unbounded
    ensures DateConditions(from, to) == "" <==> WhereDate("ml.transdate", from, to) == ""
  {
  }
}
