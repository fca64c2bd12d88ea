/** GET /admin/members-summary: the count of members per (ward, quarter) pair, with the totals of
    each ward, each quarter and the whole table (routes/admin.js). */
module CrossTab {
  import opened Records
  import opened Sorting
  import opened Collation

  /** The `Quarters` and `Ward` of one member row the query selects. */
  datatype Cell = Cell(quarter: string, ward: string)

  /** The JSON body: `data[ward][quarter]` is a count; the totals are keyed by ward and by quarter. */
  datatype Summary = Summary(
    wards: seq<string>,
    quarters: seq<string>,
    data: map<string, map<string, int>>,
    wardTotals: map<string, int>,
    quarterTotals: map<string, int>,
    grandTotal: int)

  /** `Quarters IS NOT NULL AND Quarters <> '' AND Ward IS NOT NULL AND Ward <> ''`. */
  predicate Selected(m: Member) {
    Truthy(m.quarters) && Truthy(m.ward)
  }

  /** The rows of the query, in table order. */
  function Cells(members: seq<Member>): (r: seq<Cell>)
    ensures |r| == |Filter(members, Selected)|
    ensures forall i :: 0 <= i < |r| ==>
              var m := Filter(members, Selected)[i]; m in members && Selected(m) && r[i] == Cell(m.quarters.s, m.ward.s)
  {
    var kept := Filter(members, Selected);
    assert forall i :: 0 <= i < |kept| ==> kept[i] in kept;
    seq(|kept|, i requires 0 <= i < |kept| && Selected(kept[i]) => Cell(kept[i].quarters.s, kept[i].ward.s))
  }

  function QuarterColumn(cells: seq<Cell>): seq<string> {
    seq(|cells|, i requires 0 <= i < |cells| => cells[i].quarter)
  }

  function WardColumn(cells: seq<Cell>): seq<string> {
    seq(|cells|, i requires 0 <= i < |cells| => cells[i].ward)
  }

  /** `Array.from(new Set(values)).sort()`: each value once, in increasing order (see `SortedSetIncreasing`). */
  function SortedSet(values: seq<string>): (r: seq<string>)
    ensures NoDuplicates(r)
    ensures forall k :: k in r <==> k in values
  {
    var d := Distinct(values);
    SortKeepsNoDuplicates(d, LexLe);
    SortSameElements(d, LexLe);
    SortBy(d, LexLe)
  }

  lemma SortedSetIncreasing(values: seq<string>)
    ensures forall i, j :: 0 <= i < j < |SortedSet(values)| ==> LexLt(SortedSet(values)[i], SortedSet(values)[j])
  {
    var d := Distinct(values);
    var r := SortBy(d, LexLe);
    SortedDistinctIncreasing(d);
    forall i, j | 0 <= i < j < |r| ensures LexLt(r[i], r[j]) {
      assert LexLt(SortBy(d, LexLe)[i], SortBy(d, LexLe)[j]);
    }
  }

  function WardKey(c: Cell): string {
    c.ward
  }

  function QuarterKey(c: Cell): string {
    c.quarter
  }

  /** The condition `m.Ward === ward && m.Quarters === quarter`. */
  function PairIs(ward: string, quarter: string): Cell -> bool {
    (c: Cell) => c.ward == ward && c.quarter == quarter
  }

  /** The members of one (ward, quarter) pair. */
  function CountCell(cells: seq<Cell>, ward: string, quarter: string): nat {
    |Filter(cells, PairIs(ward, quarter))|
  }

  function CountWard(cells: seq<Cell>, ward: string): nat {
    |Filter(cells, KeyIs(WardKey, ward))|
  }

  function CountQuarter(cells: seq<Cell>, quarter: string): nat {
    |Filter(cells, KeyIs(QuarterKey, quarter))|
  }

  /** `data[ward][quarter]` counts the rows of `cells` with that pair, for every listed pair, and
      the table has exactly the listed wards and quarters. */
  ghost predicate Tabulated(data: map<string, map<string, int>>, cells: seq<Cell>, wards: seq<string>, quarters: seq<string>) {
    (forall w :: w in data <==> w in wards)
    && (forall w :: w in data ==> forall q :: q in data[w] <==> q in quarters)
    && (forall w, q :: w in wards && q in quarters ==> data[w][q] == CountCell(cells, w, q))
  }

  /** One turn of the counting loop: a row whose pair is not in the table is skipped, as the
      `data[m.Ward] && data[m.Ward][m.Quarters] !== undefined` test does. */
  function Increment(data: map<string, map<string, int>>, c: Cell): map<string, map<string, int>> {
    if c.ward in data && c.quarter in data[c.ward] then data[c.ward := data[c.ward][c.quarter := data[c.ward][c.quarter] + 1]]
    else data
  }

  lemma IncrementCounts(data: map<string, map<string, int>>, done: seq<Cell>, c: Cell, wards: seq<string>, quarters: seq<string>)
    requires Tabulated(data, done, wards, quarters)
    ensures Tabulated(Increment(data, c), done + [c], wards, quarters)
  {
    IncrementKeepsShape(data, done, c, wards, quarters);
    IncrementAddsRow(data, done, c, wards, quarters);
  }

  lemma IncrementKeepsShape(data: map<string, map<string, int>>, done: seq<Cell>, c: Cell, wards: seq<string>, quarters: seq<string>)
    requires Tabulated(data, done, wards, quarters)
    ensures var d := Increment(data, c);
            (forall w :: w in d <==> w in wards) && (forall w :: w in d ==> forall q :: q in d[w] <==> q in quarters)
  {
  }

  lemma IncrementAddsRow(data: map<string, map<string, int>>, done: seq<Cell>, c: Cell, wards: seq<string>, quarters: seq<string>)
    requires Tabulated(data, done, wards, quarters)
    ensures var d := Increment(data, c);
            forall w, q :: w in wards && q in quarters ==> d[w][q] == CountCell(done + [c], w, q)
  {
    var d := Increment(data, c);
    forall w, q | w in wards && q in quarters ensures d[w][q] == CountCell(done + [c], w, q) {
      CountCellSnoc(done, c, w, q);
    }
  }

  lemma CountCellSnoc(done: seq<Cell>, c: Cell, w: string, q: string)
    ensures CountCell(done + [c], w, q) == CountCell(done, w, q) + (if c.ward == w && c.quarter == q then 1 else 0)
  {
    FilterSnoc(done, c, PairIs(w, q));
  }

  /** The zero-filled table followed by the counting loop over the rows. */
  method Tabulate(cells: seq<Cell>, wards: seq<string>, quarters: seq<string>) returns (data: map<string, map<string, int>>)
    ensures Tabulated(data, cells, wards, quarters)
  {
    data := map w | w in wards :: map q | q in quarters :: 0;
    var i := 0;
    while i < |cells|
      invariant 0 <= i <= |cells|
      invariant Tabulated(data, cells[..i], wards, quarters)
    {
      IncrementCounts(data, cells[..i], cells[i], wards, quarters);
      data := Increment(data, cells[i]);
      assert cells[..i + 1] == cells[..i] + [cells[i]];
      i := i + 1;
    }
    assert cells[..|cells|] == cells;
  }

  /** `data[ward][quarter]`, read where the table has it. */
  function At(data: map<string, map<string, int>>, ward: string, quarter: string): int {
    if ward in data && quarter in data[ward] then data[ward][quarter] else 0
  }

  function RowOf(data: map<string, map<string, int>>, ward: string): string -> int {
    q => At(data, ward, q)
  }

  function ColumnOf(data: map<string, map<string, int>>, quarter: string): string -> int {
    w => At(data, w, quarter)
  }

  /** `quarters.reduce((sum, q) => sum + data[ward][q], 0)` for every ward. */
  function WardTotals(data: map<string, map<string, int>>, wards: seq<string>, quarters: seq<string>): map<string, int> {
    map w | w in wards :: SumBy(quarters, RowOf(data, w))
  }

  /** `wards.reduce((sum, w) => sum + data[w][quarter], 0)` for every quarter. */
  function QuarterTotals(data: map<string, map<string, int>>, wards: seq<string>, quarters: seq<string>): map<string, int> {
    map q | q in quarters :: SumBy(wards, ColumnOf(data, q))
  }

  /** The whole endpoint over the Members table. */
  method MembersSummary(members: seq<Member>) returns (s: Summary)
    ensures forall w :: w in s.wards <==> exists m :: m in members && Selected(m) && m.ward.s == w
    ensures forall q :: q in s.quarters <==> exists m :: m in members && Selected(m) && m.quarters.s == q
    ensures NoDuplicates(s.wards) && NoDuplicates(s.quarters)
    ensures Tabulated(s.data, Cells(members), s.wards, s.quarters)
    ensures forall w :: w in s.wards ==> w in s.wardTotals && s.wardTotals[w] == CountWard(Cells(members), w)
    ensures forall q :: q in s.quarters ==> q in s.quarterTotals && s.quarterTotals[q] == CountQuarter(Cells(members), q)
    ensures forall i, j :: 0 <= i < j < |s.wards| ==> LexLt(s.wards[i], s.wards[j])
    ensures forall i, j :: 0 <= i < j < |s.quarters| ==> LexLt(s.quarters[i], s.quarters[j])
    ensures s.grandTotal == |Cells(members)|
    ensures SumBy(s.wards, KeyCount(Cells(members), WardKey)) == s.grandTotal
    ensures SumBy(s.quarters, KeyCount(Cells(members), QuarterKey)) == s.grandTotal
  {
    var cells := Cells(members);
    var quarters := SortedSet(QuarterColumn(cells));
    var wards := SortedSet(WardColumn(cells));
    WardColumnOfCells(members);
    QuarterColumnOfCells(members);
    var data := Tabulate(cells, wards, quarters);
    ColumnsListed(cells, wards, quarters);
    TotalsOfTable(data, cells, wards, quarters);
    SortedSetIncreasing(WardColumn(cells));
    SortedSetIncreasing(QuarterColumn(cells));
    GrandTotals(cells, wards, quarters);
    s := Summary(wards, quarters, data, WardTotals(data, wards, quarters), QuarterTotals(data, wards, quarters), |cells|);
  }

  /** Every selected row's ward and quarter are listed. */
  lemma ColumnsListed(cells: seq<Cell>, wards: seq<string>, quarters: seq<string>)
    requires forall w :: w in wards <==> w in WardColumn(cells)
    requires forall q :: q in quarters <==> q in QuarterColumn(cells)
    ensures forall i :: 0 <= i < |cells| ==> cells[i].ward in wards && cells[i].quarter in quarters
  {
    forall i | 0 <= i < |cells| ensures cells[i].ward in wards && cells[i].quarter in quarters {
      assert WardColumn(cells)[i] == cells[i].ward;
      assert QuarterColumn(cells)[i] == cells[i].quarter;
    }
  }

  /** The ward totals, and likewise the quarter totals, add up to the number of selected rows. */
  lemma GrandTotals(cells: seq<Cell>, wards: seq<string>, quarters: seq<string>)
    requires NoDuplicates(wards) && NoDuplicates(quarters)
    requires forall i :: 0 <= i < |cells| ==> cells[i].ward in wards && cells[i].quarter in quarters
    ensures SumBy(wards, KeyCount(cells, WardKey)) == |cells|
    ensures SumBy(quarters, KeyCount(cells, QuarterKey)) == |cells|
  {
    PartitionCountAll(cells, WardKey, wards);
    PartitionCountAll(cells, QuarterKey, quarters);
  }

  /** Every selected row's pair is in the table, so the totals count rows. */
  lemma TotalsOfTable(data: map<string, map<string, int>>, cells: seq<Cell>, wards: seq<string>, quarters: seq<string>)
    requires NoDuplicates(wards) && NoDuplicates(quarters)
    requires forall i :: 0 <= i < |cells| ==> cells[i].ward in wards && cells[i].quarter in quarters
    requires Tabulated(data, cells, wards, quarters)
    ensures forall w :: w in wards ==> w in WardTotals(data, wards, quarters) && WardTotals(data, wards, quarters)[w] == CountWard(cells, w)
    ensures forall q :: q in quarters ==> q in QuarterTotals(data, wards, quarters) && QuarterTotals(data, wards, quarters)[q] == CountQuarter(cells, q)
  {
    forall w | w in wards ensures WardTotals(data, wards, quarters)[w] == CountWard(cells, w) {
      WardTotalIsRowSum(cells, data, quarters, w);
    }
    forall q | q in quarters ensures QuarterTotals(data, wards, quarters)[q] == CountQuarter(cells, q) {
      QuarterTotalIsColumnSum(cells, data, wards, q);
    }
  }

  /** The ward column holds the wards of the selected member rows. */
  lemma WardColumnOfCells(members: seq<Member>)
    ensures forall w :: w in WardColumn(Cells(members)) <==> exists m :: m in members && Selected(m) && m.ward.s == w
  {
    var cells, kept := Cells(members), Filter(members, Selected);
    forall w ensures w in WardColumn(cells) <==> exists m :: m in members && Selected(m) && m.ward.s == w {
      if exists m :: m in members && Selected(m) && m.ward.s == w {
        var m :| m in members && Selected(m) && m.ward.s == w;
        var i :| 0 <= i < |kept| && kept[i] == m;
        assert WardColumn(cells)[i] == w;
      }
    }
  }

  /** The quarter column holds the quarters of the selected member rows. */
  lemma QuarterColumnOfCells(members: seq<Member>)
    ensures forall q :: q in QuarterColumn(Cells(members)) <==> exists m :: m in members && Selected(m) && m.quarters.s == q
  {
    var cells, kept := Cells(members), Filter(members, Selected);
    forall q ensures q in QuarterColumn(cells) <==> exists m :: m in members && Selected(m) && m.quarters.s == q {
      if exists m :: m in members && Selected(m) && m.quarters.s == q {
        var m :| m in members && Selected(m) && m.quarters.s == q;
        var i :| 0 <= i < |kept| && kept[i] == m;
        assert QuarterColumn(cells)[i] == q;
      }
    }
  }

  /** A ward's counts over every listed quarter add up to the ward's member count, when every
      row's quarter is listed once. */
  lemma WardTotalIsRowSum(cells: seq<Cell>, data: map<string, map<string, int>>, quarters: seq<string>, w: string)
    requires NoDuplicates(quarters)
    requires forall i :: 0 <= i < |cells| ==> cells[i].quarter in quarters
    requires forall q :: q in quarters ==> w in data && q in data[w] && data[w][q] == CountCell(cells, w, q)
    ensures SumBy(quarters, RowOf(data, w)) == CountWard(cells, w)
  {
    var inWard := Filter(cells, KeyIs(WardKey, w));
    forall i | 0 <= i < |quarters| ensures RowOf(data, w)(quarters[i]) == KeyCount(inWard, QuarterKey)(quarters[i]) {
      CountWithinWard(cells, w, quarters[i]);
    }
    SumByPointwise(quarters, RowOf(data, w), quarters, KeyCount(inWard, QuarterKey));
    forall c | c in inWard ensures QuarterKey(c) in quarters {
      assert c in cells;
    }
    PartitionCountAll(inWard, QuarterKey, quarters);
  }

  /** A quarter's counts over every listed ward add up to the quarter's member count, when every
      row's ward is listed once. */
  lemma QuarterTotalIsColumnSum(cells: seq<Cell>, data: map<string, map<string, int>>, wards: seq<string>, q: string)
    requires NoDuplicates(wards)
    requires forall i :: 0 <= i < |cells| ==> cells[i].ward in wards
    requires forall w :: w in wards ==> w in data && q in data[w] && data[w][q] == CountCell(cells, w, q)
    ensures SumBy(wards, ColumnOf(data, q)) == CountQuarter(cells, q)
  {
    var inQuarter := Filter(cells, KeyIs(QuarterKey, q));
    forall i | 0 <= i < |wards| ensures ColumnOf(data, q)(wards[i]) == KeyCount(inQuarter, WardKey)(wards[i]) {
      CountWithinQuarter(cells, wards[i], q);
    }
    SumByPointwise(wards, ColumnOf(data, q), wards, KeyCount(inQuarter, WardKey));
    forall c | c in inQuarter ensures WardKey(c) in wards {
      assert c in cells;
    }
    PartitionCountAll(inQuarter, WardKey, wards);
  }

  lemma CountWithinWard(cells: seq<Cell>, w: string, q: string)
    ensures KeyCount(Filter(cells, KeyIs(WardKey, w)), QuarterKey)(q) == CountCell(cells, w, q)
  {
    FilterFilter(cells, KeyIs(WardKey, w), KeyIs(QuarterKey, q));
    FilterCongruent(cells, Both(KeyIs(WardKey, w), KeyIs(QuarterKey, q)), PairIs(w, q));
  }

  lemma CountWithinQuarter(cells: seq<Cell>, w: string, q: string)
    ensures KeyCount(Filter(cells, KeyIs(QuarterKey, q)), WardKey)(w) == CountCell(cells, w, q)
  {
    FilterFilter(cells, KeyIs(QuarterKey, q), KeyIs(WardKey, w));
    FilterCongruent(cells, Both(KeyIs(QuarterKey, q), KeyIs(WardKey, w)), PairIs(w, q));
  }
}
