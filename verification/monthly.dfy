/** POST /admin/generate-summary: closing one calendar month into the monthlysummary table
    (routes/admin.js). The clock (`new Date()`) is the `today` parameter. */
module Monthly {
  import opened Wrappers
  import opened Records
  import opened Decimal
  import opened Sorting
  import opened Collation
  import opened Dates
  import opened Totals

  /** The request body: `year` as the template literal renders it, and `month` when it is a string
      (any other `month` makes `month.padStart` throw). */
  datatype SummaryRequest = SummaryRequest(year: string, month: Option<string>)

  /** The handler's response together with the database it leaves behind. */
  datatype Generated = Generated(outcome: Outcome<MonthlyRow>, db: Db)

  const TooLate: string := "You can only generate summary for the previous or earlier months."
  const Failed: string := "Failed to generate summary"

  // ---------------------------------------------------------------------------------------------
  // Periods.

  /** The month before `today`'s, as (year, month): January goes back to December of the year before. */
  function LastMonth(today: Date): (r: (nat, nat))
    requires ValidDate(today)
    ensures 1 <= r.1 <= 12
    ensures r.0 * 12 + (r.1 - 1) + 1 == today.year * 12 + (today.month - 1)
  {
    if today.month - 1 == 0 then (today.year - 1, 12) else (today.year, today.month - 1)
  }

  /** `${lastMonthYear}${String(lastMonth).padStart(2, '0')}`. */
  function LastPeriod(today: Date): string
    requires ValidDate(today)
  {
    var (y, m) := LastMonth(today);
    Digits(y) + Padded(m, 2)
  }

  /** `${year}${month.padStart(2, '0')}`. */
  function PeriodOf(year: string, month: string): string {
    year + PadStart(month, 2, '0')
  }

  /** The guard as written: `parseInt(period) > parseInt(lastPeriod)`. A comparison with NaN is
      false, so a period that does not read as a number passes. */
  predicate RejectedAsWritten(period: string, last: string) {
    var p, l := ParseIntPrefix(period), ParseIntPrefix(last);
    p.Some? && l.Some? && p.value > l.value
  }

  /** The guard as intended: only a period that reads as a number no later than the last month passes. */
  predicate Rejected(period: string, last: string) {
    var p, l := ParseIntPrefix(period), ParseIntPrefix(last);
    p.None? || l.None? || p.value > l.value
  }

  predicate HasPeriod(rows: seq<MonthlyRow>, period: string) {
    exists i :: 0 <= i < |rows| && rows[i].period == period
  }

  ghost predicate UniquePeriods(rows: seq<MonthlyRow>) {
    forall i, j :: 0 <= i < j < |rows| ==> rows[i].period != rows[j].period
  }

  // ---------------------------------------------------------------------------------------------
  // The figures of a month.

  /** `FORMAT(transdate, 'yyyyMM') = '${period}'`. */
  function LedgerOfPeriod(ledger: seq<LedgerEntry>, period: string): seq<LedgerEntry> {
    Filter(ledger, (e: LedgerEntry) => PeriodText(e.transdate) == period)
  }

  /** `FORMAT(docdate, 'yyyyMM') = '${period}'`. */
  function ExpensesOfPeriod(expenses: seq<Expense>, period: string): seq<Expense> {
    Filter(expenses, (x: Expense) => PeriodText(x.docdate) == period)
  }

  /** `ISNULL(SUM(amount), 0)` over the month's ledger rows. */
  function MonthCredit(ledger: seq<LedgerEntry>, period: string): int {
    SumBy(LedgerOfPeriod(ledger, period), AmountOf)
  }

  /** `ISNULL(SUM(amount), 0)` over the month's expense rows. */
  function MonthDebit(expenses: seq<Expense>, period: string): int {
    SumBy(ExpensesOfPeriod(expenses, period), ExpenseAmount)
  }

  /** `SELECT TOP 1 ... WHERE period < '${period}' ORDER BY period DESC`: among equal periods the
      earlier table row is kept (see `LatestBeforeIsGreatest`). */
  function LatestBefore(rows: seq<MonthlyRow>, period: string): (r: Option<MonthlyRow>)
    ensures r.Some? ==> r.value in rows && LexLt(r.value.period, period)
  {
    if |rows| == 0 then None
    else
      var init, x := rows[..|rows| - 1], rows[|rows| - 1];
      assert rows == init + [x];
      var best := LatestBefore(init, period);
      if !LexLt(x.period, period) then best
      else if best.None? || LexLt(best.value.period, x.period) then Some(x)
      else best
  }

  /** `prevNet`: the net balance of the latest earlier month, or 0 when there is none. */
  function PrevNet(rows: seq<MonthlyRow>, period: string): int {
    match LatestBefore(rows, period)
    case Some(x) => x.netbalance
    case None => 0
  }

  /** The row the handler inserts. The month's credits go to Debitbalance and its debits to
      Creditbalance, as the columns are named the other way round. */
  function NewSummary(db: Db, period: string): MonthlyRow {
    var prev := PrevNet(db.summaries, period);
    var credit := MonthCredit(db.ledger, period);
    var debit := MonthDebit(db.expenses, period);
    MonthlyRow(period, prev, credit, debit, prev + credit - debit)
  }

  // ---------------------------------------------------------------------------------------------
  // The handler.

  /** The steps after the period guard: a period already in the table is refused with 409;
      otherwise the month's row is computed and appended. */
  function Close(db: Db, period: string): (r: Generated)
    ensures r.outcome.Fail? <==> HasPeriod(db.summaries, period)
    ensures r.outcome.Fail? ==> r.outcome == Fail(409, "Summary for " + period + " already exists.") && r.db == db
    ensures r.outcome.Ok? ==>
              r.outcome.value.period == period && r.db == db.(summaries := db.summaries + [r.outcome.value])
  {
    if HasPeriod(db.summaries, period) then Generated(Fail(409, "Summary for " + period + " already exists."), db)
    else
      var row := NewSummary(db, period);
      Generated(Ok(row), db.(summaries := db.summaries + [row]))
  }

  /** The whole endpoint, with the guard as written (`RejectedAsWritten`). Checks run in the
      source's order: the month's type, the period guard (400), an existing period (409). */
  function GenerateSummary(db: Db, today: Date, req: SummaryRequest): (r: Generated)
    requires ValidDate(today)
    ensures r.outcome.Fail? ==> r.db == db
    ensures req.month.None? ==> r.outcome == Fail(500, Failed)
    ensures req.month.Some? ==>
              var period := PeriodOf(req.year, req.month.value);
              (r.outcome.Fail? && r.outcome.status == 400 <==> RejectedAsWritten(period, LastPeriod(today)))
              && (r.outcome.Fail? && r.outcome.status == 409 <==> !RejectedAsWritten(period, LastPeriod(today)) && HasPeriod(db.summaries, period))
    ensures r.outcome.Ok? <==>
              req.month.Some? && !RejectedAsWritten(PeriodOf(req.year, req.month.value), LastPeriod(today))
              && !HasPeriod(db.summaries, PeriodOf(req.year, req.month.value))
    ensures r.outcome.Ok? ==>
              req.month.Some? && !HasPeriod(db.summaries, r.outcome.value.period)
              && r.outcome.value.period == PeriodOf(req.year, req.month.value)
              && r.db == db.(summaries := db.summaries + [r.outcome.value])
  {
    match req.month
    case None => Generated(Fail(500, Failed), db)
    case Some(month) =>
      var period := PeriodOf(req.year, month);
      if RejectedAsWritten(period, LastPeriod(today)) then Generated(Fail(400, TooLate), db)
      else Close(db, period)
  }

  /** The endpoint with the intended guard (`Rejected`): a period that does not read as a number is
      refused with 400 as well. */
  function GenerateSummaryIntended(db: Db, today: Date, req: SummaryRequest): (r: Generated)
    requires ValidDate(today)
    ensures r.outcome.Fail? ==> r.db == db
    ensures req.month.None? ==> r.outcome == Fail(500, Failed)
    ensures req.month.Some? ==>
              var period := PeriodOf(req.year, req.month.value);
              (r.outcome.Fail? && r.outcome.status == 400 <==> Rejected(period, LastPeriod(today)))
              && (r.outcome.Fail? && r.outcome.status == 409 <==> !Rejected(period, LastPeriod(today)) && HasPeriod(db.summaries, period))
    ensures r.outcome.Ok? <==>
              req.month.Some? && !Rejected(PeriodOf(req.year, req.month.value), LastPeriod(today))
              && !HasPeriod(db.summaries, PeriodOf(req.year, req.month.value))
    ensures r.outcome.Ok? ==>
              req.month.Some? && !HasPeriod(db.summaries, r.outcome.value.period)
              && r.outcome.value.period == PeriodOf(req.year, req.month.value)
              && r.db == db.(summaries := db.summaries + [r.outcome.value])
  {
    match req.month
    case None => Generated(Fail(500, Failed), db)
    case Some(month) =>
      var period := PeriodOf(req.year, month);
      if Rejected(period, LastPeriod(today)) then Generated(Fail(400, TooLate), db)
      else Close(db, period)
  }

  // ---------------------------------------------------------------------------------------------
  // Laws.

  /** A digit string followed by a two-digit month reads as `year * 100 + month`. */
  lemma PeriodValue(y: nat, m: nat)
    requires 1 <= m <= 12
    ensures ParseIntPrefix(Digits(y) + Padded(m, 2)) == Some(y * 100 + m)
  {
    var a, b := Digits(y), Padded(m, 2);
    Pow10Values();
    ParsePadded(m, 2);
    ParseDigitsOfDigits(y);
    ParseAppend(a, b);
    assert ParseDigits(a + b) == y * 100 + m;
    DigitTextValue(a + b);
  }

  /** A non-empty digit string reads, under `parseInt`, as its own value. */
  lemma DigitTextValue(s: string)
    requires AllDigits(s) && |s| > 0
    ensures ParseIntPrefix(s) == Some(ParseDigits(s))
  {
    assert IsDigit(s[0]);
  }

  /** Comparing `yyyyMM` numbers is comparing months: 100 exceeds the twelve months of a year. */
  lemma MonthNumberOrder(y: nat, m: nat, ly: nat, lm: nat)
    requires 1 <= m <= 12 && 1 <= lm <= 12
    ensures y * 100 + m > ly * 100 + lm <==> y * 12 + m > ly * 12 + lm
  {
    if y > ly {
      assert y * 100 >= ly * 100 + 100;
      assert y * 12 >= ly * 12 + 12;
    } else if y < ly {
      assert ly * 100 >= y * 100 + 100;
      assert ly * 12 >= y * 12 + 12;
    }
  }

  /** The intended guard rejects exactly a request for the current month or a later one, for a
      year written in digits and a month written as one or two digits (`"6"` or `"06"`). */
  lemma GuardIsCalendarOrder(today: Date, y: nat, month: string, m: nat)
    requires ValidDate(today)
    requires 1 <= m <= 12 && PadStart(month, 2, '0') == Padded(m, 2)
    ensures Rejected(PeriodOf(Digits(y), month), LastPeriod(today))
            <==> y * 12 + (m - 1) >= today.year * 12 + (today.month - 1)
  {
    var (ly, lm) := LastMonth(today);
    PeriodValue(y, m);
    PeriodValue(ly, lm);
    MonthNumberOrder(y, m, ly, lm);
  }

  /** Finding: the guard as written lets a non-numeric period through, which the intended guard
      rejects; "abcd" is then the year of a summary row. */
  lemma GuardAsWrittenAdmitsNonNumber(today: Date)
    requires ValidDate(today)
    ensures ParseIntPrefix(PeriodOf("abcd", "6")) == None
    ensures !RejectedAsWritten(PeriodOf("abcd", "6"), LastPeriod(today))
    ensures Rejected(PeriodOf("abcd", "6"), LastPeriod(today))
  {
    assert PeriodOf("abcd", "6")[0] == 'a';
  }

  /** The two guards agree on every period that reads as a number. */
  lemma GuardsAgreeOnNumbers(period: string, today: Date)
    requires ValidDate(today)
    requires ParseIntPrefix(period).Some?
    ensures RejectedAsWritten(period, LastPeriod(today)) <==> Rejected(period, LastPeriod(today))
  {
    var (ly, lm) := LastMonth(today);
    PeriodValue(ly, lm);
  }

  /** The guard as written also rejects exactly the current month and later months, for a year
      written in digits: such a period always reads as a number. */
  lemma GuardAsWrittenIsCalendarOrder(today: Date, y: nat, month: string, m: nat)
    requires ValidDate(today)
    requires 1 <= m <= 12 && PadStart(month, 2, '0') == Padded(m, 2)
    ensures RejectedAsWritten(PeriodOf(Digits(y), month), LastPeriod(today))
            <==> y * 12 + (m - 1) >= today.year * 12 + (today.month - 1)
  {
    PeriodValue(y, m);
    GuardsAgreeOnNumbers(PeriodOf(Digits(y), month), today);
    GuardIsCalendarOrder(today, y, month, m);
  }

  /** A year written in hexadecimal makes the whole period read in base 16: "0x7E8" with month
      "06" is 0x7E806 (518150), not June 2024, and both guards refuse it for any year before 5000. */
  lemma HexYearReadsInBase16(today: Date)
    requires ValidDate(today) && today.year <= 5000
    ensures ParseIntPrefix(PeriodOf("0x7E8", "06")) == Some(518150)
    ensures RejectedAsWritten(PeriodOf("0x7E8", "06"), LastPeriod(today))
    ensures Rejected(PeriodOf("0x7E8", "06"), LastPeriod(today))
  {
    assert PeriodOf("0x7E8", "06") == "0x7E806";
    HexPeriodValue();
    var (ly, lm) := LastMonth(today);
    PeriodValue(ly, lm);
  }

  lemma HexPeriodValue()
    ensures ParseIntPrefix("0x7E806") == Some(518150)
  {
    var s := "0x7E806";
    var h := s[2..];
    assert h == "7E806";
    HexDigitsValue();
    assert HexRun(h) == Some(518150);
  }

  lemma HexDigitsValue()
    ensures AllHex("7E806") && ParseHex("7E806") == 518150
  {
    ParseHexSnoc("", '7');
    assert "" + ['7'] == "7";
    ParseHexSnoc("7", 'E');
    assert "7" + ['E'] == "7E";
    ParseHexSnoc("7E", '8');
    assert "7E" + ['8'] == "7E8";
    ParseHexSnoc("7E8", '0');
    assert "7E8" + ['0'] == "7E80";
    ParseHexSnoc("7E80", '6');
    assert "7E80" + ['6'] == "7E806";
  }

  /** The two endpoints answer alike, and leave the same table, whenever the period reads as a number. */
  lemma EndpointsAgreeOnNumbers(db: Db, today: Date, req: SummaryRequest)
    requires ValidDate(today)
    requires req.month.Some? ==> ParseIntPrefix(PeriodOf(req.year, req.month.value)).Some?
    ensures GenerateSummary(db, today, req) == GenerateSummaryIntended(db, today, req)
  {
    if req.month.Some? {
      GuardsAgreeOnNumbers(PeriodOf(req.year, req.month.value), today);
    }
  }

  /** Finding, at the endpoint: with the guard as written, year "abcd" and month "6" store a
      summary row for the period "abcd06"; the intended endpoint refuses the request with 400. */
  lemma AsWrittenStoresNonNumber(db: Db, today: Date)
    requires ValidDate(today)
    requires !HasPeriod(db.summaries, "abcd06")
    ensures GenerateSummary(db, today, SummaryRequest("abcd", Some("6"))).outcome == Ok(NewSummary(db, "abcd06"))
    ensures GenerateSummaryIntended(db, today, SummaryRequest("abcd", Some("6"))) == Generated(Fail(400, TooLate), db)
  {
    var req := SummaryRequest("abcd", Some("6"));
    var period := PeriodOf("abcd", "6");
    assert period == "abcd06";
    GuardAsWrittenAdmitsNonNumber(today);
    assert GenerateSummary(db, today, req) == Close(db, period);
    assert GenerateSummaryIntended(db, today, req) == Generated(Fail(400, TooLate), db);
  }

  /** `LatestBefore` finds an earlier row whenever there is one, and no earlier row comes after it. */
  lemma {:induction false} LatestBeforeIsGreatest(rows: seq<MonthlyRow>, period: string)
    ensures LatestBefore(rows, period).None? <==> forall x :: x in rows ==> !LexLt(x.period, period)
    ensures LatestBefore(rows, period).Some? ==>
              forall x :: x in rows && LexLt(x.period, period) ==> LexLe(x.period, LatestBefore(rows, period).value.period)
  {
    if |rows| > 0 {
      var init, x := rows[..|rows| - 1], rows[|rows| - 1];
      assert rows == init + [x];
      LatestBeforeIsGreatest(init, period);
      var best := LatestBefore(init, period);
      var r := LatestBefore(rows, period);
      LexLeReflexive(x.period);
      if best.Some? {
        LexLeTotal(best.value.period, x.period);
      }
      if r.Some? {
        forall z | z in rows && LexLt(z.period, period) ensures LexLe(z.period, r.value.period) {
          if z in init && z != x {
            if r.value == x && best.Some? {
              LexLeTransitive(z.period, best.value.period, x.period);
            }
          }
        }
      }
    }
  }

  /** Months closed in order chain: the opening balance of the next month is the net balance of
      the month closed just before it. */
  lemma OpeningBalanceChains(rows: seq<MonthlyRow>, row: MonthlyRow, next: string)
    requires forall x :: x in rows ==> LexLt(x.period, row.period)
    requires LexLt(row.period, next)
    ensures PrevNet(rows + [row], next) == row.netbalance
  {
    var all := rows + [row];
    assert all[..|all| - 1] == rows;
    var best := LatestBefore(rows, next);
    if best.Some? {
      assert LexLt(best.value.period, row.period);
    }
  }

  /** `prevNet` is 0 when no month comes earlier. */
  lemma PrevNetWithoutEarlier(rows: seq<MonthlyRow>, period: string)
    requires forall x :: x in rows ==> !LexLt(x.period, period)
    ensures PrevNet(rows, period) == 0
  {
    LatestBeforeIsGreatest(rows, period);
  }

  /** With distinct periods, `prevNet` is the net balance of the latest earlier month. */
  lemma PrevNetOfLatest(rows: seq<MonthlyRow>, period: string, y: MonthlyRow)
    requires UniquePeriods(rows)
    requires y in rows && LexLt(y.period, period)
    requires forall x :: x in rows && LexLt(x.period, period) ==> LexLe(x.period, y.period)
    ensures PrevNet(rows, period) == y.netbalance
  {
    LatestBeforeIsGreatest(rows, period);
    var best := LatestBefore(rows, period).value;
    assert LexLe(best.period, y.period) && LexLe(y.period, best.period);
    LexLeAntisymmetric(best.period, y.period);
    var i :| 0 <= i < |rows| && rows[i] == best;
    var j :| 0 <= j < |rows| && rows[j] == y;
    assert i == j;
  }

  /** What a successful request stores: the net balance moves by the month's credits less its
      debits from the opening balance, which is `prevNet` (see `PrevNetOfLatest`). */
  lemma GeneratedRowBalances(db: Db, today: Date, req: SummaryRequest)
    requires ValidDate(today)
    requires GenerateSummary(db, today, req).outcome.Ok?
    ensures var row := GenerateSummary(db, today, req).outcome.value;
            row.netbalance == row.openbalance + row.debitbalance - row.creditbalance
            && row.openbalance == PrevNet(db.summaries, row.period)
            && row.debitbalance == MonthCredit(db.ledger, row.period)
            && row.creditbalance == MonthDebit(db.expenses, row.period)
  {
  }

  /** Sending the same request again after it succeeded is refused with 409, and changes nothing. */
  lemma RepeatIsConflict(db: Db, today: Date, req: SummaryRequest)
    requires ValidDate(today)
    requires GenerateSummary(db, today, req).outcome.Ok?
    ensures var db' := GenerateSummary(db, today, req).db;
            var again := GenerateSummary(db', today, req);
            again.outcome.Fail? && again.outcome.status == 409 && again.db == db'
  {
    var g := GenerateSummary(db, today, req);
    var rows := g.db.summaries;
    assert rows[|rows| - 1].period == g.outcome.value.period;
  }

  /** Closing a month keeps the periods of the table distinct. */
  lemma GenerateKeepsUniquePeriods(db: Db, today: Date, req: SummaryRequest)
    requires ValidDate(today)
    requires UniquePeriods(db.summaries)
    ensures UniquePeriods(GenerateSummary(db, today, req).db.summaries)
  {
    var g := GenerateSummary(db, today, req);
    if g.outcome.Ok? {
      var rows, n := g.db.summaries, |db.summaries|;
      forall i, j | 0 <= i < j < |rows| ensures rows[i].period != rows[j].period {
        if j == n {
          assert rows[i] == db.summaries[i];
        }
      }
    }
  }

  /** For valid dates, the `yyyyMM` text filter keeps exactly the rows of that calendar month. */
  lemma MonthFiguresAreCalendarMonth(db: Db, y: nat, m: nat)
    requires ValidDate(Date(y, m, 1))
    requires forall e :: e in db.ledger ==> ValidDate(e.transdate)
    requires forall x :: x in db.expenses ==> ValidDate(x.docdate)
    ensures MonthCredit(db.ledger, PeriodText(Date(y, m, 1)))
            == SumBy(Filter(db.ledger, (e: LedgerEntry) => e.transdate.year == y && e.transdate.month == m), AmountOf)
    ensures MonthDebit(db.expenses, PeriodText(Date(y, m, 1)))
            == SumBy(Filter(db.expenses, (x: Expense) => x.docdate.year == y && x.docdate.month == m), ExpenseAmount)
  {
    var d := Date(y, m, 1);
    forall e | e in db.ledger ensures (PeriodText(e.transdate) == PeriodText(d)) == (e.transdate.year == y && e.transdate.month == m) {
      PeriodTextInjective(e.transdate, d);
    }
    FilterCongruent(db.ledger, (e: LedgerEntry) => PeriodText(e.transdate) == PeriodText(d),
                    (e: LedgerEntry) => e.transdate.year == y && e.transdate.month == m);
    forall x | x in db.expenses ensures (PeriodText(x.docdate) == PeriodText(d)) == (x.docdate.year == y && x.docdate.month == m) {
      PeriodTextInjective(x.docdate, d);
    }
    FilterCongruent(db.expenses, (x: Expense) => PeriodText(x.docdate) == PeriodText(d),
                    (x: Expense) => x.docdate.year == y && x.docdate.month == m);
  }
}
