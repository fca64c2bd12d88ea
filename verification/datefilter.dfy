/** The optional `start`/`end` date window of a report: the SQL text `whereDate` appends to a query
    (routes/admin.js) and the set of dates that text admits. */
module DateFilter {
  import opened Wrappers
  import opened Records
  import opened Dates

  /** Inclusive bounds; a missing bound does not restrict. */
  datatype Window = Window(lo: Option<Date>, hi: Option<Date>)

  const Unbounded: Window := Window(None, None)

  predicate InWindow(d: Date, w: Window) {
    (w.lo.None? || DateLe(w.lo.value, d)) && (w.hi.None? || DateLe(d, w.hi.value))
  }

  function LowerClause(field: string, start: string): string {
    field + " >= '" + start + "'"
  }

  function UpperClause(field: string, end: string): string {
    field + " <= '" + end + "'"
  }

  function Join(parts: seq<string>, sep: string): string {
    if |parts| == 0 then ""
    else if |parts| == 1 then parts[0]
    else parts[0] + sep + Join(parts[1..], sep)
  }

  /** `whereDate(field, start, end)`: one clause per truthy bound, lower bound first, each preceded by ` AND `. */
  function WhereDate(field: string, start: Option<string>, end: Option<string>): (r: string)
    ensures r == "" <==> !Given(start) && !Given(end)
    ensures Given(start) && Given(end) ==> r == " AND " + LowerClause(field, start.value) + " AND " + UpperClause(field, end.value)
    ensures Given(start) && !Given(end) ==> r == " AND " + LowerClause(field, start.value)
    ensures !Given(start) && Given(end) ==> r == " AND " + UpperClause(field, end.value)
  {
    var clauses :=
      (if Given(start) then [LowerClause(field, start.value)] else [])
      + (if Given(end) then [UpperClause(field, end.value)] else []);
    assert Given(start) && Given(end) ==> Join(clauses, " AND ") == clauses[0] + " AND " + Join(clauses[1..], " AND ");
    assert Given(start) && Given(end) ==> clauses[1..] == [UpperClause(field, end.value)];
    if |clauses| > 0 then " AND " + Join(clauses, " AND ") else ""
  }

  /** The window the database applies for the request's `start` and `end`, or `None` when a truthy
      bound is not a date literal and the conversion to DATE fails. */
  function ResolveWindow(start: Option<string>, end: Option<string>): (r: Option<Window>)
    ensures r.Some? <==> (!Given(start) || ParseIsoDate(start.value).Some?) && (!Given(end) || ParseIsoDate(end.value).Some?)
    ensures r.Some? ==> (r.value.lo.Some? <==> Given(start)) && (r.value.hi.Some? <==> Given(end))
    ensures r.Some? && Given(start) ==> r.value.lo == ParseIsoDate(start.value)
    ensures r.Some? && Given(end) ==> r.value.hi == ParseIsoDate(end.value)
  {
    var lo := if Given(start) then ParseIsoDate(start.value) else None;
    var hi := if Given(end) then ParseIsoDate(end.value) else None;
    if (Given(start) && lo.None?) || (Given(end) && hi.None?) then None
    else Some(Window(lo, hi))
  }

  /** The text and the window agree: no clause exactly when nothing is excluded, and each clause
      quotes the rendering of the bound the database compares against. */
  lemma WhereDateDescribesWindow(field: string, start: Option<string>, end: Option<string>, w: Window)
    requires ResolveWindow(start, end) == Some(w)
    ensures WhereDate(field, start, end) == "" <==> w == Unbounded
    ensures w == Unbounded ==> forall d :: InWindow(d, w)
    ensures w.lo.Some? ==> start.value == DateText(w.lo.value)
    ensures w.hi.Some? ==> end.value == DateText(w.hi.value)
  {
    if w.lo.Some? { DateTextOfParse(start.value); }
    if w.hi.Some? { DateTextOfParse(end.value); }
  }
}
