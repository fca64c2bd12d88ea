# OCDAonline ledger core in Dafny

OCDAonline is an Express server over a Microsoft SQL Server database for a community development
association. Its members pay dues, which are recorded in a member ledger. Administrators run
enquiries over the ledger, close monthly balances and maintain member records. This project models
the core of the two route files as pure functions over an in-memory database
`Db(members, ledger, expenses, summaries)`. Every SQL statement becomes a function on sequences.
Every HTTP reply becomes an `Outcome` value: `Ok(value)`, or `Fail(status, message)` with the
status code and message the handler sends.

Modules:

- `Wrappers`, `Records`: `Option` and `Outcome`; the member, ledger and expense rows; SQL NULL
  (`Value = Null | Text(s)`) and JavaScript truthiness.
- `Decimal`, `Dates`: decimal renderings, `padStart`, `parseInt` and the `yyyy-MM-dd`, `yyyyMM` and
  `yyyy-MM` date formats.
- `Sorting`, `Collation`: a stable sort (`ORDER BY` with ties in table order), filtering, sums, and
  code-point string order.
- `DateFilter`: `whereDate` and the date window a query applies.
- `Totals`: ledger queries with a member join (`Pick`), per-member and per-group sums.
- `Enquiry`, `EnquiryRows`, `EnquiryLaws`: the admin enquiry (member, ward, quarter and account
  reports, summary and detail modes).
- `Monthly`: closing a month (generate-summary).
- `CrossTab`: the ward-by-quarter member count (members-summary).
- `MemberUpdate`: the admin member update and the phone-number change.
- `Auth`: the two token middlewares and member login.
- `Profile`: the member's own profile update.
- `MemberApi`: the member's monthly total and the member-side ward/quarter enquiry.

Amounts are integers (the smallest currency unit). Dates are `Date(year, month, day)`. The handlers
look members up by phone number and check for duplicates in code before writing one (routes/admin.js,
server.js); the table's own key is the identity column `Id`. The database schema is not part of this
model, so the model ASSUMES that `PhoneNumber` is NOT NULL and UNIQUE: most laws take
`UniquePhones(members)` as a precondition, and the updates answer 500 where such a constraint would
refuse a write.

## Model

| member | source | states |
|---|---|---|
| DateFilter.WhereDate | routes/admin.js:779-784 | no clause when neither bound is truthy; otherwise ` AND ` then the lower clause, then the upper clause, each present exactly when its bound is truthy |
| DateFilter.ResolveWindow | routes/admin.js:779-784 | the request has a window exactly when every truthy bound converts to a DATE; a side of the window is bounded exactly when its bound is truthy, at the date the bound denotes |
| DateFilter.WhereDateDescribesWindow | routes/admin.js:779-784 | the SQL text and the window agree: an empty text means an unbounded window, and each clause quotes the rendering of the date it compares against |
| Dates.ParseDateText | routes/admin.js:815 | every valid date rendered as `yyyy-MM-dd` reads back as the same date |
| Dates.DateTextOfParse | routes/admin.js:781-782 | an ISO literal that converts to a date is exactly that date's rendering |
| Dates.PeriodTextInjective | routes/admin.js:449 | two valid dates with the same `yyyyMM` text fall in the same calendar month |
| Dates.MonthTextInjective | server.js:438 | two valid dates with the same `yyyy-MM` text fall in the same calendar month |
| Records.FullName | routes/admin.js:801 | `Surname + ' ' + othernames` is NULL exactly when either part is NULL, and otherwise is the two parts joined by a space |
| Records.Owner | routes/admin.js:816-817 | the join finds a member exactly when one has the phone; under unique phones it is that member |
| Records.NameOf | routes/admin.js:815-817 | a LEFT JOIN row whose phone has no member carries a NULL full name |
| Totals.Pick | routes/admin.js:814-820 | the query returns no more rows than the ledger holds (contents in `Totals.PickContents`) |
| Totals.PickContents | routes/admin.js:814-820 | each in-window selected row is returned as often as the table holds it, and nothing else |
| Totals.MembersSumIsJoinSum | routes/admin.js:857-864 | summing the members' totals equals summing the in-window ledger rows whose owner the filter admits |
| Totals.MembersSumSplit | routes/admin.js:857-864 | disjoint member filters split a sum into two |
| Totals.GroupTotalsPartition | routes/admin.js:857-864 | the totals of distinct group keys add up to the sum over the members whose key is listed |
| Totals.GroupKeys | routes/admin.js:861-863 | the group keys are each distinct non-empty value of the column, listed once |
| Totals.GroupKeysTotal | routes/admin.js:857-868 | the group rows add up to every in-window ledger row whose owner has a non-empty value, counted once |
| Enquiry.Handle | routes/admin.js:787-1026 | an unknown type gives empty summary and detail; a known type fails with 500 exactly when a truthy bound is not a date; account gives one summary row and no detail; summary mode gives no detail |
| Enquiry.KeysBesidesAll | routes/admin.js:872 | a key is listed exactly when it is some summary row's key other than "ALL" |
| Enquiry.WardDetails | routes/admin.js:873-887 | every pushed node is a ward group named after a ward of the list it walks (order and contents in `EnquiryLaws.WardDetailsAreListedWards`) |
| Enquiry.PhonesWhere | routes/admin.js:891-893 | the phone list holds exactly the phones of the members with that ward |
| Enquiry.InQuarter | routes/admin.js:969 | the rows are exactly the members of that quarter |
| Enquiry.QuarterWards | routes/admin.js:940-943 | `SELECT DISTINCT Ward` lists each ward of the quarter's members once, NULL included |
| Enquiry.PhonesWithKey | routes/admin.js:970-974 | the phones under a key are exactly those of the rows whose ward has that key |
| Enquiry.KeyedWardGroups | routes/admin.js:986-1001 | the loop yields at most one group per ward |
| Enquiry.ExpensesIn | routes/admin.js:1017 | each expense row dated inside the window is kept as often as the table holds it, and no other row is kept |
| EnquiryRows.DetailRowsSum | routes/admin.js:835-845 | converting ledger rows to detail rows keeps their amounts |
| EnquiryRows.SumOrNull | routes/admin.js:828 | `SUM` without `ISNULL` is NULL exactly over no rows |
| EnquiryRows.PhoneDateLeIsTotalPreorder | routes/admin.js:819 | `ORDER BY phoneno, transdate DESC` is a total preorder, so the sorted output is ordered |
| EnquiryRows.NameLeIsTotalPreorder | routes/admin.js:805 | `ORDER BY fullname` (NULL first) is a total preorder |
| EnquiryLaws.PickSelectorsAgree | routes/admin.js:894 | two selectors that agree on every ledger row pick the same rows |
| EnquiryLaws.PhoneTotalWithoutEntries | routes/admin.js:801 | a member with no in-window transactions has total zero |
| EnquiryLaws.PhoneListIsJoin | routes/admin.js:892-895 | `phoneno IN (phones of the admitted members)` picks the same rows as the join filtered the same way, under unique phones |
| EnquiryLaws.MemberRowsSum | routes/admin.js:800-809 | the member rows add up to the sum of the members' totals |
| EnquiryLaws.MemberAllSummary | routes/admin.js:798-810 | one row per member (a permutation of the member rows) sorted by full name, then an ALL row whose total is both the sum of the rows above and the in-window total of every member-owned ledger row |
| EnquiryLaws.MemberAllListsEveryMember | routes/admin.js:800-806 | every member appears with their own in-window total, even without transactions |
| EnquiryLaws.MemberAllDetailMatchesAccount | routes/admin.js:812-821 | the detail lists every in-window transaction as a flat row, and its amounts add up to the account enquiry's credit for the same window |
| EnquiryLaws.SortedRowsSum | routes/admin.js:835-845 | sorted and joined rows add up to the query's SUM |
| EnquiryLaws.SingleMemberDetailTotal | routes/admin.js:823-846 | summary mode lists a row only when the member has in-window transactions; other modes list one row whose total is the member's in-window total, with the name only when there are rows and it is non-empty |
| EnquiryLaws.SingleMemberDetailRows | routes/admin.js:835-846 | the detail lists the member's in-window transactions, which carry that phone and add up to the reported total |
| EnquiryLaws.GroupRowsSum | routes/admin.js:866-867 | the group rows add up to the sum of the per-key totals |
| EnquiryLaws.GroupKeysIncreasing | routes/admin.js:862-863 | the group keys come out strictly increasing |
| EnquiryLaws.GroupSummaryRows | routes/admin.js:857-864 | one row per group key, each carrying the in-window total of ledger rows joined to members with that key, then one more row |
| EnquiryLaws.GroupSummaryAllRow | routes/admin.js:866-868 | the last row is ALL; its total is the sum of the rows above and the in-window total of every row whose member has a non-empty value |
| EnquiryLaws.KeysBesidesAllRow | routes/admin.js:872 | the detail loop walks exactly the group keys other than a real value spelled "ALL" |
| EnquiryLaws.WardDetailsEmit | routes/admin.js:873-887 | a ward's group is pushed exactly when its name is non-empty and it has transactions, and it holds that ward's transactions |
| EnquiryLaws.AllWardsDetail | routes/admin.js:870-888 | Ward/ALL detail has a group for ward k exactly when some member has ward k, k is non-empty and not "ALL", and k has in-window transactions |
| EnquiryLaws.WardDetailsAreListedWards | routes/admin.js:873-887 | the ward loop yields, in the order of the list it walks, one group per ward with a truthy name and transactions, holding that ward's transactions, and nothing else |
| EnquiryLaws.KeysBesidesAllIsFilter | routes/admin.js:867-872 | the keys the loop walks are the summary rows' keys without "ALL", in summary order |
| EnquiryLaws.WardLoopKeys | routes/admin.js:857-872 | the Ward/ALL loop walks the sorted, distinct ward keys other than "ALL" |
| EnquiryLaws.AllWardsDetailOrder | routes/admin.js:857-886 | Ward/ALL detail lists its groups in the summary's sorted ward order, each ward at most once, exactly the wards with a truthy name and transactions |
| EnquiryLaws.WardMembersSum | routes/admin.js:874-883 | a ward group's transactions add up to that ward's summary total |
| EnquiryLaws.OneWardIsJoin | routes/admin.js:889-913 | a single ward's total equals the ward join's total, or NULL when no row qualifies; the detail holds the same transactions |
| EnquiryLaws.QuarterWardGroupContents | routes/admin.js:947-958 | a NULL ward's group is always empty; a named ward's group adds up to the total of the quarter's members in that ward |
| EnquiryLaws.QuarterNodeGroups | routes/admin.js:938-958 | one quarter's ward groups: every ward of the quarter's members exactly once, NULL and wards without transactions included; with unique phones each group adds up to that ward's members within the quarter, and a NULL ward's group is empty |
| EnquiryLaws.AllQuartersDetail | routes/admin.js:935-962 | one node per quarter other than ALL, in summary order, each listing every ward of that quarter's members exactly once, NULL and wards without transactions included; with unique phones each group adds up to that ward's members within the quarter, and a NULL ward's group is empty |
| EnquiryLaws.PhonesByWardContents | routes/admin.js:969-974 | a key is present in the reduce exactly when some row's ward has it, and holds those rows' phones in row order |
| EnquiryLaws.QuarterWardsHavePhones | routes/admin.js:987-989 | every ward the DISTINCT query returns has phones, so the `continue` is never taken |
| EnquiryLaws.KeyedWardGroupsAreKeptWards | routes/admin.js:986-1001 | the single-quarter loop yields, in the order of the wards it walks, one group per ward with phones under its key, listing those phones' transactions, and nothing else |
| EnquiryLaws.KeyedWardGroupsContents | routes/admin.js:986-1001 | when no ward is skipped, one group per ward in order, each listing the transactions of the phones under its key |
| EnquiryLaws.OneQuarterMeaning | routes/admin.js:963-1004 | a single quarter's total is that of the quarter's members (NULL when none qualifies); the detail has one group per distinct ward |
| EnquiryLaws.PhonesWithKeyOfQuarter | routes/admin.js:970-974 | under a named ward's key sit exactly the phones of the quarter's members in that ward |
| EnquiryLaws.OneQuarterGroupIsJoin | routes/admin.js:987-1000 | for a named ward other than "null", the single-quarter group equals the Quarter/ALL group |
| EnquiryLaws.OneQuarterNullWard | routes/admin.js:970-974 | a member with no ward is filed under the key "null", while Quarter/ALL's group for that ward is empty |
| EnquiryLaws.AccountCreditIsMemberTotal | routes/admin.js:1007-1019 | when every ledger row belongs to a member, the account credit equals the Member/ALL total |
| Monthly.LastMonth | routes/admin.js:417-427 | the month before today's: a month number 1 to 12, exactly one calendar month earlier, with January going back to December |
| Monthly.LatestBefore | routes/admin.js:459-464 | the row found is in the table and has an earlier period |
| Monthly.LatestBeforeIsGreatest | routes/admin.js:459-464 | a row is found exactly when some period is earlier, and no earlier period comes after it |
| Monthly.GenerateSummary | routes/admin.js:411-489 | with the guard as written: a missing month is a 500; 400 exactly when `parseInt(period) > parseInt(lastPeriod)` holds; 409 exactly when it does not and the period exists; success exactly when a month is given, the guard passes and the period is new, and then one row is appended and nothing else changes; failures change nothing |
| Monthly.GenerateSummaryIntended | routes/admin.js:411-489 | the same endpoint with the intended guard: a period that does not read as a number is refused with 400 too; success exactly when a month is given, the intended guard passes and the period is new |
| Monthly.Close | routes/admin.js:437-484 | after the guard: 409 exactly when the period is already in the table; otherwise the new row for that period is appended and nothing else changes |
| Monthly.EndpointsAgreeOnNumbers | routes/admin.js:429-433 | the endpoint as written and the intended one give the same reply and table whenever the period reads as a number |
| Monthly.AsWrittenStoresNonNumber | routes/admin.js:429-484 | the endpoint as written stores a summary row for the period "abcd06", which the intended endpoint refuses with 400 |
| Monthly.GuardAsWrittenIsCalendarOrder | routes/admin.js:429-433 | for a year written in digits, the guard as written rejects exactly the current month and later months |
| Monthly.HexYearReadsInBase16 | routes/admin.js:430 | `parseInt` reads a period with a `0x` year in base 16 ("0x7E806" is 518150), and both guards refuse it |
| Monthly.GuardIsCalendarOrder | routes/admin.js:429-433 | the intended guard rejects exactly the current month and later months, for a month written "6" or "06" |
| Monthly.GuardAsWrittenAdmitsNonNumber | routes/admin.js:429-433 | the guard as written lets the period "abcd06" through |
| Monthly.GuardsAgreeOnNumbers | routes/admin.js:429-433 | the written and corrected guards agree on every period that reads as a number |
| Monthly.PeriodValue | routes/admin.js:413-415 | a digit year followed by a two-digit month reads as year * 100 + month |
| Monthly.MonthNumberOrder | routes/admin.js:430 | comparing yyyyMM numbers is comparing calendar months |
| Monthly.GeneratedRowBalances | routes/admin.js:446-475 | the stored net balance is the opening balance plus the month's credits minus its debits, with credits and debits stored in swapped columns |
| Monthly.PrevNetWithoutEarlier | routes/admin.js:464 | the opening balance is 0 when no month is earlier |
| Monthly.PrevNetOfLatest | routes/admin.js:459-464 | with distinct periods, the opening balance is the latest earlier month's net balance |
| Monthly.OpeningBalanceChains | routes/admin.js:459-466 | closing months in order chains balances: the next opening balance is the last net balance |
| Monthly.RepeatIsConflict | routes/admin.js:436-443 | repeating a successful request gets 409 and changes nothing |
| Monthly.GenerateKeepsUniquePeriods | routes/admin.js:436-475 | closing a month keeps periods distinct |
| Monthly.MonthFiguresAreCalendarMonth | routes/admin.js:446-456 | the `yyyyMM` text filters keep exactly the rows of that calendar month |
| CrossTab.Cells | routes/admin.js:1374-1380 | the rows are exactly the members with a non-empty quarter and ward, in order |
| CrossTab.SortedSet | routes/admin.js:1383-1390 | each value once, and nothing else |
| CrossTab.SortedSetIncreasing | routes/admin.js:1389-1390 | the sorted set is strictly increasing |
| CrossTab.Tabulate | routes/admin.js:1393-1404 | every listed (ward, quarter) cell holds the number of rows with that pair, and the table has no other cells |
| CrossTab.IncrementCounts | routes/admin.js:1400-1404 | one loop step keeps the table counting the rows seen so far |
| CrossTab.MembersSummary | routes/admin.js:1370-1422 | the ward and quarter lists hold each value once in increasing order; the table counts every pair; each ward and quarter total counts its rows; the grand total is the row count, and both lists of totals add up to it |
| CrossTab.WardTotalIsRowSum | routes/admin.js:1407-1410 | a ward's cells add up to the ward's member count |
| CrossTab.QuarterTotalIsColumnSum | routes/admin.js:1411-1414 | a quarter's cells add up to the quarter's member count |
| CrossTab.GrandTotals | routes/admin.js:1415 | both the ward totals and the quarter totals add up to the number of rows |
| MemberUpdate.Merge | routes/admin.js:606 | a field the body sends replaces the stored value; a field it omits keeps it |
| MemberUpdate.MergeDate | routes/admin.js:597-604 | a date the body omits keeps the stored date; one sent as `''` becomes NULL; anything else replaces it |
| MemberUpdate.MergedColumn | routes/admin.js:586-609 | every merged column holds what the body sent (with the date rule) or the stored value; the Id is kept |
| MemberUpdate.UpdateMember | routes/admin.js:563-651 | 404 exactly when no member has the phone; 409 exactly when the body names another phone already in use; success exactly when the member exists, there is no 409, and the merged phone is non-NULL and either unchanged or free; success rewrites only the members table; failures change nothing |
| MemberUpdate.EmptyPatchKeepsDb | routes/admin.js:563-646 | for an existing member, a body that sends nothing succeeds and leaves the database unchanged |
| MemberUpdate.UpdateKeepsUniquePhones | routes/admin.js:624-644 | a successful update keeps phones unique |
| MemberUpdate.UpdateMovesKey | routes/admin.js:576-644 | afterwards the member is found under the new phone, and the old phone is free when it changed |
| MemberUpdate.MergeTwice | routes/admin.js:586-609 | merging the same body twice gives the same row as merging once |
| MemberUpdate.UpdateIdempotent | routes/admin.js:563-651 | sending the same body again to the member's new phone succeeds and changes nothing |
| MemberUpdate.UpdateOkWhen | routes/admin.js:563-651 | a body that names the member's current phone, or none, is accepted |
| MemberUpdate.ChangePhone | routes/admin.js:1517-1574 | 400 exactly when a phone is missing; 404 exactly when the old phone is unknown; 409 exactly when the new one is taken; success exactly when none of these holds and the transaction does not fail; failures change nothing |
| MemberUpdate.RenameMovesTotal | routes/admin.js:1557-1560 | after renaming, the new phone's total is the old phone's total plus whatever was already booked under the new phone |
| MemberUpdate.RenameEmptiesOld | routes/admin.js:1557-1560 | after renaming, nothing is booked under the old phone |
| MemberUpdate.RenameKeepsOtherTotals | routes/admin.js:1557-1560 | every other phone keeps its total |
| MemberUpdate.ChangePhoneKeepsKeys | routes/admin.js:1517-1568 | a successful change keeps phones unique and the ledger owned, and finds the member under the new phone only |
| MemberUpdate.ChangePhoneMovesHistory | routes/admin.js:1549-1563 | the member's whole payment history moves to the new phone |
| MemberUpdate.ChangePhoneKeepsOthers | routes/admin.js:1549-1563 | every other phone keeps its total |
| MemberUpdate.ChangePhoneRoundTrip | routes/admin.js:1517-1574 | changing the phone back restores the database exactly |
| Auth.ServerToken | server.js:47-55 | 403 "No token provided" exactly when the header is missing or empty; a `Bearer ` prefix is cut off; any other header is the token |
| Auth.Split | routes/admin.js:18 | at least one piece, and no piece contains the separator |
| Auth.SplitJoin | routes/admin.js:18 | joining the pieces with the separator gives the text back |
| Auth.SplitCount | routes/admin.js:18 | the text splits into more than one piece exactly when it holds the separator |
| Auth.AdminToken | routes/admin.js:11-18 | 403 exactly when the header is missing; otherwise the token is the second space-separated piece, absent exactly when the header has no space |
| Auth.BearerTokensAgree | routes/admin.js:18 | both middlewares read `Bearer t` as `t` when t has no space |
| Auth.BareTokensDisagree | server.js:53-55 | without the prefix, server.js uses the header whole, while admin.js finds no token |
| Auth.Classify | server.js:155-163 | lookup by Id exactly when the identifier is all digits and at most 2147483647, at the number it reads as; otherwise by phone with the raw identifier |
| Auth.FirstMatch | server.js:165-171 | no position exactly when no row matches; otherwise the first matching row |
| Auth.Login | server.js:147-179 | "not found" naming the looked-up field exactly when no row matches; success only when some matching row's stored password equals the one sent, replying with that row's Id and phone (with unique keys, the row the query finds: see `Auth.PasswordRefusal`) |
| Auth.PasswordRefusal | server.js:171-175 | with unique keys, a login naming row i is refused exactly when the password differs from row i's |
| Auth.LoginByPhone | server.js:159-179 | a member whose phone is not a small digit string logs in with phone and password |
| Auth.LoginById | server.js:155-179 | a member logs in with the decimal rendering of their Id when it fits in 32 bits |
| Profile.SlotsInOrder | server.js:287-338 | the handler's blocks are listed once each, in handler order |
| Profile.Written | server.js:287-338 | the blocks whose body field is truthy, in handler order |
| Profile.SetList | server.js:284-338 | one SET fragment per input, each `column = @name` for that input; each input carries the body's non-empty value |
| Profile.SetListOnePerField | server.js:287-338 | each truthy field gives exactly one fragment; falsy fields give none; fragments follow handler order |
| Profile.UpdateProfile | server.js:259-365 | 400 without the current phone; 400 exactly when no field is truthy; success exactly when the current phone and some field are given and the phone is not renamed onto another member's; on success only the members table changes, keeping its length; failures change nothing |
| Profile.ProfileWritesSentColumns | server.js:351-357 | each row under the current phone gets the new phone when one is sent and each truthy column, and keeps everything else |
| Profile.ProfileKeepsOtherRows | server.js:351-357 | rows under other phones are untouched |
| Profile.SetListMatchesPatch | server.js:284-357 | a column is in the SET list exactly when the row change writes it |
| Profile.UnknownPhoneSucceeds | server.js:351-359 | an unknown current phone is answered with success and changes nothing |
| Profile.ProfileKeepsUniquePhones | server.js:351-357 | a successful update keeps phones unique |
| MemberApi.MonthlyTotal | server.js:421-448 | 400 exactly when month or phone is missing; 0 when no row matches |
| MemberApi.MonthWindow | server.js:438 | a valid date is in the window exactly when it has that year and month |
| MemberApi.MonthlyTotalIsCalendarMonth | server.js:421-442 | a `yyyy-MM` month gives the member's total over that calendar month's days |
| MemberApi.FilterDim | server.js:455-457 | a type is accepted exactly when it is "ward" or "quarters" |
| MemberApi.DateConditions | server.js:467-468 | no condition exactly when neither bound is truthy |
| MemberApi.ApiEnquiry | server.js:451-480 | 400 exactly for an unknown type; 500 exactly when a bound is not a date; success exactly when neither holds; every row returned is an in-window ledger row of a member with that ward or quarter, with the owner's ward |
| MemberApi.ApiEnquiryComplete | server.js:461-474 | every in-window ledger row of such a member is returned |
| MemberApi.ApiEnquiryMatchesMembersSum | server.js:461-474 | the returned amounts add up to the admin enquiry's sum over that ward's or quarter's members |
| MemberApi.DateConditionsDescribeWindow | server.js:467-472 | no appended condition exactly when the window is unbounded, matching `whereDate` |

## Left out

- Connection pools, `await`, HTTP plumbing and logging: every handler becomes a function from the
  request and the database to a reply and a new database.
- JWT signing and verification, sessions and `req.session.userId`: the token middlewares are
  modelled only up to the token they extract.
- SQL injection through interpolated text (`param`, `start`, `end`, `period`): the model treats
  interpolated values as the values they spell.
- SQL Server collation and case-insensitive comparison: strings compare by code point. JavaScript's
  UTF-16 `sort()` and collation-ordered `ORDER BY` are both modelled as code-point order.
- Date conversion of anything but valid ISO `yyyy-MM-dd` dates. Two parsers convert dates in the
  source:
  - SQL Server converts the window bounds that the admin enquiry writes into the query text as
    literals. Other formats it accepts are treated as failed conversions.
  - The JavaScript driver converts the values bound as `sql.Date`, using JavaScript's date parsing,
    before the database sees them. These are the member enquiry bounds, the DOB and exitdate of
    PUT /member/:phone, and the exitDate of /api/update-profile. That parsing is not modelled.
- MemberApi.ApiEnquiry: a bound that JavaScript's date parsing accepts but that is not a valid ISO
  date is modelled as a 500, although the source then answers 200 with the converted window.
  Examples are a day past the end of the month, which rolls over ("2024-02-30" becomes 1 March), a
  date-time string, and other formats the parser reads.
- Leading whitespace in `parseInt` and `Number`; `parseInt` with an explicit radix. A sign and a `0x`
  or `0X` prefix are modelled.
- `VarChar(6)` truncation of the period and `Decimal(18,2)` rounding: amounts are exact integers.
- Floating point (`parseFloat`, `Number`) in the JavaScript sums: sums are exact.
- `ORDER BY` ties and `TOP 1` among equal periods: ties keep table order, which SQL Server does not
  promise.
- Queries without `ORDER BY`, such as the member enquiry at server.js:461-474, are modelled as
  returning rows in table order; SQL Server promises no order for them, so only the rows returned,
  not their order, are the source's promise.
- The join-based laws assume `UniquePhones`, which rests on the assumed UNIQUE constraint on
  `PhoneNumber` (see above); rows sharing a phone are not studied.
- MemberUpdate.UpdateMember: the 500 for a NULL merged phone or one another member holds rests on
  the assumed NOT NULL and UNIQUE constraints on `PhoneNumber`; without them the UPDATE would
  succeed, and the model does not describe that database.
- Profile.UpdateProfile: the 500 for a new phone another member holds rests on the assumed UNIQUE
  constraint on `PhoneNumber`; without it the UPDATE would succeed.
- Enquiry.QuarterWards: `SELECT DISTINCT Ward` is modelled in first-occurrence table order, which
  SQL Server does not promise; the Quarter/ALL and single-quarter detail groups follow that order.
- JavaScript object keys in `phonesByWard` are strings, so a NULL ward files under "null"; this is
  modelled. Other key coercions (numbers, prototype names) are not.
- A JSON body value that is not a string (a number, an object) in any handler: bodies carry text or
  nothing. Login's password may also be JSON `null`.
- Auth.ServerToken, Auth.AdminToken: the 401 for a token that fails verification is not modelled,
  because JWT verification is not.
- MemberUpdate.UpdateMember: the DOB and exitdate columns hold the sent text, not the DATE the
  driver converts it to. A date field that fails that conversion, and any other database error
  besides a NULL or duplicate phone, are not modelled.
- Profile.UpdateProfile: the exitdate column holds the sent text, not the DATE the driver converts
  it to. An `exitDate` that fails that conversion is not modelled.
- MemberUpdate.ChangePhone: `fault` stands for an UPDATE inside the transaction failing. The outer
  "Server error." 500 (a connection failure) is not modelled.
- Foreign keys: PUT /member/:phone does not rename the member's ledger rows, and the model follows
  the code, leaving them under the old phone. Whether the database would refuse this depends on
  constraints that are not part of this model.
- The other routes (plain CRUD on admins, notices, static lists, expenses, income classes),
  password reset and logout are outside the modelled core.

## Findings

| source | as written | input that shows it | evidently intended | confidence | as-written member | corrected member |
|---|---|---|---|---|---|---|
| routes/admin.js:429-433 | the guard compares `parseInt(period) > parseInt(lastPeriod)`; for a non-numeric period `parseInt` gives `NaN`, the comparison is false, and the request passes | year "abcd", month "6": period "abcd06" passes and is stored as a summary row (`Monthly.AsWrittenStoresNonNumber`) | only earlier months, written as numbers, are accepted (`Monthly.GuardIsCalendarOrder`) | not executed | Monthly.GenerateSummary | Monthly.GenerateSummaryIntended |
