/** GET /admin/enquiry: dispatch on `type`, `param` and `mode`, resolve the optional date window,
    and build the `{summary, detail}` report of one of the four dimensions (routes/admin.js). */
module Enquiry {
  import opened Wrappers
  import opened Records
  import opened Sorting
  import opened Collation
  import opened DateFilter
  import opened Totals
  import opened EnquiryRows

  /** The query string; a key left out of the URL is `None`. */
  datatype Request = Request(kind: Option<string>, param: Option<string>, mode: Option<string>, start: Option<string>, end: Option<string>)

  const Failed: string := "Failed to process enquiry"

  predicate KnownKind(kind: Option<string>) {
    kind == Some("member") || kind == Some("ward") || kind == Some("quarter") || kind == Some("account")
  }

  /** The whole endpoint. Every known dimension issues a query carrying the date window, so a bound
      the database cannot read as a date fails the request; an unknown dimension issues none. */
  function Handle(db: Db, req: Request): (r: Outcome<Report>)
    ensures !KnownKind(req.kind) ==> r == Ok(Report([], []))
    ensures KnownKind(req.kind) ==> (r.Fail? <==> ResolveWindow(req.start, req.end).None?)
    ensures r.Fail? ==> r.status == 500 && r.message == Failed
    ensures r.Ok? && req.kind == Some("account") ==> r.value.detail == [] && |r.value.summary| == 1
    ensures r.Ok? && req.mode.GetOr("summary") == "summary" ==> r.value.detail == []
  {
    var param := req.param.GetOr("ALL");
    var mode := req.mode.GetOr("summary");
    if !KnownKind(req.kind) then Ok(Report([], []))
    else
      match ResolveWindow(req.start, req.end)
      case None => Fail(500, Failed)
      case Some(w) =>
        if req.kind == Some("member") then Ok(MemberReport(db, param, mode, w))
        else if req.kind == Some("ward") then Ok(WardReport(db, param, mode, w))
        else if req.kind == Some("quarter") then Ok(QuarterReport(db, param, mode, w))
        else Ok(AccountReport(db, req.start, req.end, w))
  }

  // ---------------------------------------------------------------------------------------------
  // Member dimension.

  /** One row per member: phone, full name and in-window total (0 when the member paid nothing). */
  function MemberRowsOf(members: seq<Member>, ledger: seq<LedgerEntry>, w: Window): (r: seq<SummaryRow>)
    ensures |r| == |members|
    ensures forall i :: 0 <= i < |members| ==>
              r[i] == MemberTotal(members[i].phone, FullName(members[i]), Some(PhoneTotal(ledger, members[i].phone, w)))
  {
    seq(|members|, i requires 0 <= i < |members| =>
          MemberTotal(members[i].phone, FullName(members[i]), Some(PhoneTotal(ledger, members[i].phone, w))))
  }

  /** `summary.push({...: 'ALL', total: allTotal})` after summing the rows. */
  function WithMemberAllRow(rows: seq<SummaryRow>): seq<SummaryRow> {
    rows + [MemberTotal("ALL", Text("ALL"), Some(SumBy(rows, TotalValue)))]
  }

  function FlatNodes(rows: seq<DetailRow>): (r: seq<DetailNode>)
    ensures |r| == |rows|
    ensures forall i :: 0 <= i < |rows| ==> r[i] == Flat(rows[i])
  {
    seq(|rows|, i requires 0 <= i < |rows| => Flat(rows[i]))
  }

  /** `detail[0]?.fullname || ''`. */
  function FirstName(rows: seq<DetailRow>): Value {
    if |rows| > 0 && Truthy(rows[0].fullname) then rows[0].fullname else Text("")
  }

  function MemberReport(db: Db, param: string, mode: string, w: Window): Report {
    if param == "ALL" then AllMembersReport(db, mode, w) else OneMemberReport(db, param, mode, w)
  }

  function AllMembersReport(db: Db, mode: string, w: Window): Report {
    var rows := SortBy(MemberRowsOf(db.members, db.ledger, w), NameLe);
    var detail :=
      if mode == "detail" then FlatNodes(DetailRows(db.members, SortBy(Pick(db.ledger, AnyEntry, w), PhoneDateLe)))
      else [];
    Report(WithMemberAllRow(rows), detail)
  }

  /** Any mode other than summary takes the detail path for a single member. */
  function OneMemberReport(db: Db, phone: string, mode: string, w: Window): Report {
    var entries := Pick(db.ledger, OfPhone(phone), w);
    if mode == "summary" then
      // GROUP BY phoneno over the member's rows: no group, no row
      Report(if |entries| == 0 then [] else [SingleMemberTotal(phone, NameOf(db.members, phone), Some(SumBy(entries, AmountOf)))], [])
    else
      var rows := DetailRows(db.members, SortBy(entries, DateDescLe));
      Report([SingleMemberTotal(phone, FirstName(rows), Some(SumBy(rows, RowAmount)))], FlatNodes(rows))
  }

  // ---------------------------------------------------------------------------------------------
  // Ward and quarter dimensions: grouped summaries.

  /** One row per group key with the members' summed in-window totals; `ward` selects the row shape. */
  function GroupRows(keys: seq<string>, members: seq<Member>, ledger: seq<LedgerEntry>, w: Window, dim: Dim): (r: seq<SummaryRow>)
    ensures |r| == |keys|
    ensures forall i :: 0 <= i < |keys| ==> r[i] == GroupRow(dim, keys[i], MembersSum(members, ledger, w, AttrIs(dim, keys[i])))
  {
    seq(|keys|, i requires 0 <= i < |keys| => GroupRow(dim, keys[i], MembersSum(members, ledger, w, AttrIs(dim, keys[i]))))
  }

  function GroupRow(dim: Dim, key: string, total: int): SummaryRow {
    match dim
    case WardDim => WardTotal(key, Some(total))
    case QuarterDim => QuartersTotal(key, Some(total))
  }

  function GroupKey(r: SummaryRow): string {
    match r
    case WardTotal(k, _) => k
    case QuartersTotal(k, _) => k
    case _ => ""
  }

  /** The grouped summary with its trailing synthetic ALL row. */
  function GroupSummary(members: seq<Member>, ledger: seq<LedgerEntry>, w: Window, dim: Dim): seq<SummaryRow> {
    var rows := GroupRows(GroupKeys(members, dim, LexLe), members, ledger, w, dim);
    rows + [GroupRow(dim, "ALL", SumBy(rows, TotalValue))]
  }

  /** `summary.filter(r => r.Ward !== 'ALL').map(r => r.Ward)` (and the same on Quarters). */
  function KeysBesidesAll(summary: seq<SummaryRow>): (r: seq<string>)
    ensures forall k :: k in r <==> k != "ALL" && exists i :: 0 <= i < |summary| && GroupKey(summary[i]) == k
  {
    if |summary| == 0 then []
    else
      var rest := KeysBesidesAll(summary[1..]);
      assert forall i :: 1 <= i < |summary| ==> summary[i] == summary[1..][i - 1];
      assert forall i :: 0 <= i < |summary[1..]| ==> summary[1..][i] == summary[i + 1];
      if GroupKey(summary[0]) != "ALL" then [GroupKey(summary[0])] + rest else rest
  }

  // ---------------------------------------------------------------------------------------------
  // Ward dimension.

  /** The transactions of the members of a ward, joined and ordered by phone then date descending. */
  function WardMembers(members: seq<Member>, ledger: seq<LedgerEntry>, w: Window, ward: string): seq<DetailRow> {
    DetailRows(members, SortBy(Pick(ledger, OwnedBy(members, AttrIs(WardDim, ward)), w), PhoneDateLe))
  }

  /** A ward the loop pushes: its name is truthy and it has transactions. */
  predicate Listed(members: seq<Member>, ledger: seq<LedgerEntry>, w: Window, ward: string) {
    ward != "" && WardMembers(members, ledger, w, ward) != []
  }

  function ListedIn(members: seq<Member>, ledger: seq<LedgerEntry>, w: Window): string -> bool {
    (ward: string) => Listed(members, ledger, w, ward)
  }

  /** The group pushed for a ward. */
  function WardNode(members: seq<Member>, ledger: seq<LedgerEntry>, w: Window, ward: string): DetailNode {
    ByWard(WardGroup(Text(ward), WardMembers(members, ledger, w, ward)))
  }

  /** The loop over wards (see `WardDetailsAreListedWards` for what it yields). */
  function WardDetails(members: seq<Member>, ledger: seq<LedgerEntry>, w: Window, wards: seq<string>): (r: seq<DetailNode>)
    ensures forall n :: n in r ==> n.ByWard? && n.group.ward.Text? && n.group.ward.s in wards
  {
    if |wards| == 0 then []
    else
      var rest := WardDetails(members, ledger, w, wards[1..]);
      if Listed(members, ledger, w, wards[0]) then [WardNode(members, ledger, w, wards[0])] + rest else rest
  }

  /** Phones of the members whose ward is exactly `ward` (`SELECT PhoneNumber FROM Members WHERE Ward = '...'`). */
  function PhonesWhere(members: seq<Member>, dim: Dim, key: string): (r: seq<string>)
    ensures forall p :: p in r <==> exists m :: m in members && Attr(m, dim) == Text(key) && m.phone == p
  {
    if |members| == 0 then []
    else
      var rest := PhonesWhere(members[1..], dim, key);
      assert forall m :: m in members <==> m == members[0] || m in members[1..];
      if Attr(members[0], dim) == Text(key) then [members[0].phone] + rest else rest
  }

  function WardReport(db: Db, param: string, mode: string, w: Window): Report {
    if param == "ALL" then AllWardsReport(db, mode, w) else OneWardReport(db, param, mode, w)
  }

  function AllWardsReport(db: Db, mode: string, w: Window): Report {
    var summary := GroupSummary(db.members, db.ledger, w, WardDim);
    var detail := if mode == "detail" then WardDetails(db.members, db.ledger, w, KeysBesidesAll(summary)) else [];
    Report(summary, detail)
  }

  /** One ward: the phones of its members first, then `phoneno IN (...)` (or `1=0` for none). */
  function OneWardReport(db: Db, ward: string, mode: string, w: Window): Report {
    var phones := PhonesWhere(db.members, WardDim, ward);
    var entries := Pick(db.ledger, OfPhones(phones), w);
    var detail :=
      if mode == "detail" then [ByWard(WardGroup(Text(ward), DetailRows(db.members, SortBy(entries, PhoneDateLe))))]
      else [];
    Report([WardTotal(ward, SumOrNull(entries))], detail)
  }

  // ---------------------------------------------------------------------------------------------
  // Quarter dimension.

  /** The member rows of one quarter, in table order. */
  function InQuarter(members: seq<Member>, quarter: string): (r: seq<Member>)
    ensures forall m :: m in r <==> m in members && m.quarters == Text(quarter)
  {
    if |members| == 0 then []
    else
      var rest := InQuarter(members[1..], quarter);
      assert forall m :: m in members <==> m == members[0] || m in members[1..];
      if members[0].quarters == Text(quarter) then [members[0]] + rest else rest
  }

  function WardsOf(members: seq<Member>): (r: seq<Value>)
    ensures |r| == |members|
    ensures forall i :: 0 <= i < |members| ==> r[i] == members[i].ward
  {
    seq(|members|, i requires 0 <= i < |members| => members[i].ward)
  }

  /** `SELECT DISTINCT Ward FROM Members WHERE Quarters = ...` (NULL included, first-occurrence order). */
  function QuarterWards(members: seq<Member>, quarter: string): (r: seq<Value>)
    ensures NoDuplicates(r)
    ensures forall v :: v in r <==> exists m :: m in members && m.quarters == Text(quarter) && m.ward == v
  {
    var inq := InQuarter(members, quarter);
    var ws := WardsOf(inq);
    assert forall v :: v in ws <==> exists m :: m in inq && m.ward == v by {
      forall v ensures v in ws <==> exists m :: m in inq && m.ward == v {
        if v in ws {
          var i :| 0 <= i < |ws| && ws[i] == v;
          assert inq[i] in inq;
        }
        if exists m :: m in inq && m.ward == v {
          var m :| m in inq && m.ward == v;
          var i :| 0 <= i < |inq| && inq[i] == m;
          assert ws[i] == v;
        }
      }
    }
    Distinct(ws)
  }

  /** Quarter/ALL: the group of one ward of the quarter
      (`WHERE m.Ward = @ward AND m.Quarters = @quarter`; a NULL ward matches nothing). */
  function QuarterWardGroup(members: seq<Member>, ledger: seq<LedgerEntry>, w: Window, quarter: string, ward: Value): (g: WardGroup)
    ensures g.ward == ward
  {
    WardGroup(ward, DetailRows(members, SortBy(Pick(ledger, OwnedBy(members, WardInQuarter(ward, quarter)), w), PhoneDateLe)))
  }

  /** Every ward of the quarter gets a group, even one with no transactions. */
  function QuarterWardGroups(members: seq<Member>, ledger: seq<LedgerEntry>, w: Window, quarter: string, wards: seq<Value>): (r: seq<WardGroup>)
    ensures |r| == |wards|
    ensures forall i :: 0 <= i < |wards| ==> r[i] == QuarterWardGroup(members, ledger, w, quarter, wards[i])
  {
    seq(|wards|, i requires 0 <= i < |wards| => QuarterWardGroup(members, ledger, w, quarter, wards[i]))
  }

  function QuarterDetails(members: seq<Member>, ledger: seq<LedgerEntry>, w: Window, quarters: seq<string>): (r: seq<DetailNode>)
    ensures |r| == |quarters|
    ensures forall i :: 0 <= i < |quarters| ==>
              r[i] == ByQuarter(quarters[i], QuarterWardGroups(members, ledger, w, quarters[i], QuarterWards(members, quarters[i])))
  {
    seq(|quarters|, i requires 0 <= i < |quarters| =>
          ByQuarter(quarters[i], QuarterWardGroups(members, ledger, w, quarters[i], QuarterWards(members, quarters[i]))))
  }

  /** The key a JavaScript object gives a ward value: `acc[row.Ward]` turns NULL into "null". */
  function KeyOf(v: Value): string {
    match v
    case Null => "null"
    case Text(s) => s
  }

  /** The `phonesByWard` reduce: each row's phone appended under its ward's key, in row order. */
  function PhonesByWard(rows: seq<Member>): map<string, seq<string>> {
    if |rows| == 0 then map[]
    else
      var acc := PhonesByWard(rows[..|rows| - 1]);
      var row := rows[|rows| - 1];
      var k := KeyOf(row.ward);
      acc[k := (if k in acc then acc[k] else []) + [row.phone]]
  }

  /** The phones of the rows whose ward has key `k`, in row order. */
  function PhonesWithKey(rows: seq<Member>, k: string): (r: seq<string>)
    ensures forall p :: p in r <==> exists m :: m in rows && KeyOf(m.ward) == k && m.phone == p
  {
    if |rows| == 0 then []
    else
      var init, row := rows[..|rows| - 1], rows[|rows| - 1];
      assert rows == init + [row];
      var acc := PhonesWithKey(init, k);
      if KeyOf(row.ward) == k then acc + [row.phone] else acc
  }

  function PhonesOf(rows: seq<Member>): (r: seq<string>)
    ensures forall p :: p in r <==> exists m :: m in rows && m.phone == p
  {
    if |rows| == 0 then []
    else
      assert forall m :: m in rows <==> m == rows[0] || m in rows[1..];
      [rows[0].phone] + PhonesOf(rows[1..])
  }

  /** `phonesByWard[ward] || []`. */
  function PhonesUnder(byWard: map<string, seq<string>>, ward: Value): seq<string> {
    if KeyOf(ward) in byWard then byWard[KeyOf(ward)] else []
  }

  function HasPhonesIn(byWard: map<string, seq<string>>): Value -> bool {
    (ward: Value) => PhonesUnder(byWard, ward) != []
  }

  function KeyedGroupOf(members: seq<Member>, ledger: seq<LedgerEntry>, w: Window, byWard: map<string, seq<string>>): Value -> WardGroup {
    (ward: Value) => PhonesGroup(members, ledger, w, ward, PhonesUnder(byWard, ward))
  }

  /** Single quarter detail: the loop over the quarter's wards, skipping a ward with no phones
      (see `KeyedWardGroupsAreKeptWards` for what it yields). */
  function KeyedWardGroups(members: seq<Member>, ledger: seq<LedgerEntry>, w: Window, byWard: map<string, seq<string>>, wards: seq<Value>): (r: seq<WardGroup>)
    ensures |r| <= |wards|
  {
    if |wards| == 0 then []
    else
      var rest := KeyedWardGroups(members, ledger, w, byWard, wards[1..]);
      if HasPhonesIn(byWard)(wards[0]) then [KeyedGroupOf(members, ledger, w, byWard)(wards[0])] + rest else rest
  }

  /** The group of a ward listed through its phones (`l.phoneno IN (...)`). */
  function PhonesGroup(members: seq<Member>, ledger: seq<LedgerEntry>, w: Window, ward: Value, phones: seq<string>): (g: WardGroup)
    ensures g.ward == ward
  {
    WardGroup(ward, DetailRows(members, SortBy(Pick(ledger, OfPhones(phones), w), PhoneDateLe)))
  }

  function QuarterReport(db: Db, param: string, mode: string, w: Window): Report {
    if param == "ALL" then AllQuartersReport(db, mode, w) else OneQuarterReport(db, param, mode, w)
  }

  function AllQuartersReport(db: Db, mode: string, w: Window): Report {
    var summary := GroupSummary(db.members, db.ledger, w, QuarterDim);
    var detail := if mode == "detail" then QuarterDetails(db.members, db.ledger, w, KeysBesidesAll(summary)) else [];
    Report(summary, detail)
  }

  /** One quarter: its members' phones grouped by ward key, the total over all of them, and in
      detail mode one group per distinct ward of the quarter. */
  function OneQuarterReport(db: Db, quarter: string, mode: string, w: Window): Report {
    var inq := InQuarter(db.members, quarter);
    var byWard := PhonesByWard(inq);
    var entries := Pick(db.ledger, OfPhones(PhonesOf(inq)), w);
    var detail :=
      if mode == "detail" then [ByQuarter(quarter, KeyedWardGroups(db.members, db.ledger, w, byWard, QuarterWards(db.members, quarter)))]
      else [];
    Report([QuarterTotal(quarter, SumOrNull(entries))], detail)
  }

  // ---------------------------------------------------------------------------------------------
  // Account dimension.

  /** Expense rows dated inside the window (`docdate` filter), in table order: each in-window row
      as often as the table holds it, and nothing else. */
  function ExpensesIn(expenses: seq<Expense>, w: Window): (r: seq<Expense>)
    ensures forall x :: multiset(r)[x] == if InWindow(x.docdate, w) then multiset(expenses)[x] else 0
    ensures forall x :: x in r <==> x in expenses && InWindow(x.docdate, w)
  {
    if |expenses| == 0 then []
    else
      var rest := ExpensesIn(expenses[1..], w);
      assert expenses == [expenses[0]] + expenses[1..];
      assert forall x :: x in expenses <==> x == expenses[0] || x in expenses[1..];
      if InWindow(expenses[0].docdate, w) then [expenses[0]] + rest else rest
  }

  /** `'${start || 'N/A'}'`. */
  function BoundLabel(o: Option<string>): string {
    if Given(o) then o.value else "N/A"
  }

  function AccountReport(db: Db, start: Option<string>, end: Option<string>, w: Window): Report {
    Report([AccountTotals(BoundLabel(start), BoundLabel(end),
                          PickedSum(db.ledger, AnyEntry, w),
                          SumBy(ExpensesIn(db.expenses, w), ExpenseAmount))], [])
  }
}
