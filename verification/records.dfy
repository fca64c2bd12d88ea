/** The rows of the organisation's database: members, ledger entries (dues paid), expenses and
    monthly summaries, plus the joins the handlers perform on them. */
module Records {
  import opened Wrappers

  /** A nullable text column, or a string-or-null value in a JSON body. */
  datatype Value = Null | Text(s: string)

  /** JavaScript truthiness of a string-or-null value: non-null and non-empty. */
  predicate Truthy(v: Value) {
    v.Text? && |v.s| > 0
  }

  /** JavaScript truthiness of an optional string (a query parameter or body field that may be undefined). */
  predicate Given(o: Option<string>) {
    o.Some? && |o.value| > 0
  }

  /** A calendar date as SQL Server's DATE type holds it. */
  datatype Date = Date(year: nat, month: nat, day: nat)

  /** A row of the Members table; `phone` (PhoneNumber) is assumed unique. */
  datatype Member = Member(
    id: int,
    phone: string,
    phone2: Value,
    surname: Value,
    othernames: Value,
    title: Value,
    honTitle: Value,
    sex: Value,
    quarters: Value,
    ward: Value,
    state: Value,
    town: Value,
    dob: Value,
    qualifications: Value,
    profession: Value,
    exitdate: Value,
    password: Value,
    email: Value)

  /** A row of memberledger: one payment booked against a member's phone number (amounts in the currency's smallest unit). */
  datatype LedgerEntry = LedgerEntry(phone: string, transdate: Date, amount: int, remark: Value, paydate: Date)

  /** A row of ocdaexpenses. */
  datatype Expense = Expense(docdate: Date, project: Value, amount: int, remark: Value)

  /** A row of monthlysummary; `period` is the six-character text `yyyyMM`. */
  datatype MonthlyRow = MonthlyRow(period: string, openbalance: int, debitbalance: int, creditbalance: int, netbalance: int)

  datatype Db = Db(members: seq<Member>, ledger: seq<LedgerEntry>, expenses: seq<Expense>, summaries: seq<MonthlyRow>)

  /** The assumed uniqueness of Members.PhoneNumber (the table's key is `Id`). */
  ghost predicate UniquePhones(members: seq<Member>) {
    forall i, j :: 0 <= i < j < |members| ==> members[i].phone != members[j].phone
  }

  predicate HasPhone(members: seq<Member>, phone: string) {
    exists i :: 0 <= i < |members| && members[i].phone == phone
  }

  /** `Surname + ' ' + othernames`: NULL when either part is NULL, as SQL string concatenation gives. */
  function FullName(m: Member): (r: Value)
    ensures r.Text? <==> m.surname.Text? && m.othernames.Text?
    ensures r.Text? ==> r.s == m.surname.s + " " + m.othernames.s
  {
    match (m.surname, m.othernames)
    case (Text(a), Text(b)) => Text(a + " " + b)
    case _ => Null
  }

  /** The member a ledger row joins to on `phoneno = PhoneNumber`, if any. */
  function Owner(members: seq<Member>, phone: string): (r: Option<Member>)
    ensures r.Some? <==> HasPhone(members, phone)
    ensures r.Some? ==> r.value in members && r.value.phone == phone
    ensures UniquePhones(members) ==> forall i :: 0 <= i < |members| && members[i].phone == phone ==> r == Some(members[i])
  {
    if |members| == 0 then None
    else if members[0].phone == phone then Some(members[0])
    else
      var r := Owner(members[1..], phone);
      assert HasPhone(members, phone) <==> HasPhone(members[1..], phone) by {
        if HasPhone(members, phone) {
          var i :| 0 <= i < |members| && members[i].phone == phone;
          assert members[1..][i - 1] == members[i];
        }
        if HasPhone(members[1..], phone) {
          var i :| 0 <= i < |members[1..]| && members[1..][i].phone == phone;
          assert members[i + 1] == members[1..][i];
        }
      }
      assert UniquePhones(members) ==> UniquePhones(members[1..]) by {
        if UniquePhones(members) {
          forall i, j | 0 <= i < j < |members[1..]| ensures members[1..][i].phone != members[1..][j].phone {
            assert members[1..][i] == members[i + 1] && members[1..][j] == members[j + 1];
          }
        }
      }
      assert forall i :: 1 <= i < |members| ==> members[i] == members[1..][i - 1];
      r
  }

  /** The `fullname` column of a `memberledger LEFT JOIN Members` row: NULL when no member owns the phone. */
  function NameOf(members: seq<Member>, phone: string): (r: Value)
    ensures !HasPhone(members, phone) ==> r == Null
  {
    match Owner(members, phone)
    case Some(m) => FullName(m)
    case None => Null
  }
}
