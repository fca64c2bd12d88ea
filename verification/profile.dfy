/** POST /api/update-profile (server.js): a member edits their own row. Only the fields the body
    sends as truthy values are written, each through one `SET` fragment and one bound input. */
module Profile {
  import opened Wrappers
  import opened Records
  import opened Sorting
  import opened DateFilter
  import opened MemberUpdate

  /** The body fields the handler reads; `None` for a field the body leaves out. */
  datatype ProfileBody = ProfileBody(
    oldPhone: Option<string>, phone: Option<string>, phoneNo2: Option<string>, email: Option<string>,
    state: Option<string>, sex: Option<string>, title: Option<string>, honTitle: Option<string>,
    quarters: Option<string>, ward: Option<string>, town: Option<string>, qualifications: Option<string>,
    profession: Option<string>, exitDate: Option<string>)

  /** One `if (field) { updates.push(...); inputs.push(...) }` block: the new phone or a column. */
  datatype Slot = NewPhone | Col(c: Column)

  /** The block the handler runs `i`-th. */
  function SlotAt(i: nat): Slot
    requires i < 13
  {
    match i
    case 0 => NewPhone
    case 1 => Col(Phone2)
    case 2 => Col(Email)
    case 3 => Col(State)
    case 4 => Col(Sex)
    case 5 => Col(Title)
    case 6 => Col(HonTitle)
    case 7 => Col(Quarters)
    case 8 => Col(Ward)
    case 9 => Col(Town)
    case 10 => Col(Qualifications)
    case 11 => Col(Profession)
    case _ => Col(Exitdate)
  }

  /** The blocks in the order the handler runs them. */
  function Slots(): seq<Slot> {
    seq(13, i requires 0 <= i < 13 => SlotAt(i))
  }

  /** Position of a block in `Slots()` (columns the handler never writes come after all of them). */
  function Rank(s: Slot): nat {
    match s
    case NewPhone => 0
    case Col(Phone2) => 1
    case Col(Email) => 2
    case Col(State) => 3
    case Col(Sex) => 4
    case Col(Title) => 5
    case Col(HonTitle) => 6
    case Col(Quarters) => 7
    case Col(Ward) => 8
    case Col(Town) => 9
    case Col(Qualifications) => 10
    case Col(Profession) => 11
    case Col(Exitdate) => 12
    case Col(_) => 13
  }

  lemma RankOfSlot(i: nat)
    requires i < 13
    ensures Rank(SlotAt(i)) == i
  {
  }

  /** The handler's blocks are the slots of rank below 13, each once, in rank order. */
  lemma SlotsInOrder()
    ensures forall i :: 0 <= i < 13 ==> Rank(Slots()[i]) == i
    ensures forall s :: s in Slots() <==> Rank(s) < 13
  {
    forall i | 0 <= i < 13 ensures Rank(Slots()[i]) == i {
      RankOfSlot(i);
    }
    forall s | Rank(s) < 13 ensures s in Slots() {
      assert Slots()[Rank(s)] == s;
    }
  }

  function RankLt(): (Slot, Slot) -> bool {
    (a: Slot, b: Slot) => Rank(a) < Rank(b)
  }

  function ColumnName(s: Slot): string {
    match s
    case NewPhone => "PhoneNumber"
    case Col(Phone2) => "phoneno2"
    case Col(Email) => "email"
    case Col(State) => "State"
    case Col(Sex) => "Sex"
    case Col(Title) => "Title"
    case Col(HonTitle) => "HonTitle"
    case Col(Quarters) => "Quarters"
    case Col(Ward) => "Ward"
    case Col(Town) => "Town"
    case Col(Qualifications) => "Qualifications"
    case Col(Profession) => "Profession"
    case Col(Exitdate) => "exitdate"
    case Col(Surname) => "Surname"
    case Col(Othernames) => "othernames"
    case Col(Dob) => "DOB"
    case Col(Password) => "Password"
  }

  /** The name of the bound input (`@newPhone`, `@phoneNo2`, ...). */
  function ParamName(s: Slot): string {
    match s
    case NewPhone => "newPhone"
    case Col(Phone2) => "phoneNo2"
    case Col(Email) => "email"
    case Col(State) => "state"
    case Col(Sex) => "sex"
    case Col(Title) => "title"
    case Col(HonTitle) => "honTitle"
    case Col(Quarters) => "quarters"
    case Col(Ward) => "ward"
    case Col(Town) => "town"
    case Col(Qualifications) => "qualifications"
    case Col(Profession) => "profession"
    case Col(Exitdate) => "exitDate"
    case Col(Surname) => "surname"
    case Col(Othernames) => "othernames"
    case Col(Dob) => "dob"
    case Col(Password) => "password"
  }

  /** The body field a block tests. */
  function BodyField(b: ProfileBody, s: Slot): Option<string> {
    match s
    case NewPhone => b.phone
    case Col(Phone2) => b.phoneNo2
    case Col(Email) => b.email
    case Col(State) => b.state
    case Col(Sex) => b.sex
    case Col(Title) => b.title
    case Col(HonTitle) => b.honTitle
    case Col(Quarters) => b.quarters
    case Col(Ward) => b.ward
    case Col(Town) => b.town
    case Col(Qualifications) => b.qualifications
    case Col(Profession) => b.profession
    case Col(Exitdate) => b.exitDate
    case Col(_) => None
  }

  function Sends(b: ProfileBody): Slot -> bool {
    (s: Slot) => Given(BodyField(b, s))
  }

  /** `{ name, type, value }` pushed onto `inputs` (the SQL type is not modelled). */
  datatype Input = Input(name: string, value: string)

  lemma SlotsSorted()
    ensures SortedBy(Slots(), RankLt())
  {
    SlotsInOrder();
    forall i, j | 0 <= i < j < |Slots()| ensures RankLt()(Slots()[i], Slots()[j]) {
    }
  }

  lemma WrittenFacts(b: ProfileBody)
    ensures forall s :: s in Filter(Slots(), Sends(b)) <==> s in Slots() && Given(BodyField(b, s))
    ensures SortedBy(Filter(Slots(), Sends(b)), RankLt())
  {
    SlotsSorted();
    FilterSorted(Slots(), Sends(b), RankLt());
  }

  /** The blocks whose field is truthy, in handler order. */
  function Written(b: ProfileBody): (r: seq<Slot>)
    ensures forall s :: s in r <==> s in Slots() && Given(BodyField(b, s))
    ensures SortedBy(r, RankLt())
  {
    WrittenFacts(b);
    Filter(Slots(), Sends(b))
  }

  function Fragment(s: Slot): string {
    ColumnName(s) + " = @" + ParamName(s)
  }

  /** The `updates` and `inputs` arrays the handler builds. */
  function SetList(b: ProfileBody): (r: (seq<string>, seq<Input>))
    ensures |r.0| == |r.1| == |Written(b)|
    ensures forall j :: 0 <= j < |r.0| ==> r.0[j] == ColumnName(Written(b)[j]) + " = @" + r.1[j].name
    ensures forall j :: 0 <= j < |r.1| ==> r.1[j].name == ParamName(Written(b)[j])
    ensures forall j :: 0 <= j < |r.1| ==> Some(r.1[j].value) == BodyField(b, Written(b)[j]) && |r.1[j].value| > 0
  {
    var w := Written(b);
    assert forall j :: 0 <= j < |w| ==> w[j] in w;
    (seq(|w|, j requires 0 <= j < |w| => Fragment(w[j])),
     seq(|w|, j requires 0 <= j < |w| => Input(ParamName(w[j]), BodyField(b, w[j]).value)))
  }

  /** The row change the `SET` list describes, as a merge of the sent columns. */
  function ProfilePatch(b: ProfileBody): MemberPatch {
    MemberPatch(
      Absent, SentIf(b.phoneNo2), Absent, Absent, SentIf(b.title), SentIf(b.honTitle), SentIf(b.sex),
      SentIf(b.quarters), SentIf(b.ward), SentIf(b.state), SentIf(b.town), Absent,
      SentIf(b.qualifications), SentIf(b.profession), SentIf(b.exitDate), Absent, SentIf(b.email))
  }

  function SentIf(o: Option<string>): (f: Field)
    ensures f.Sent? <==> Given(o)
    ensures f.Sent? ==> f.v == Text(o.value)
  {
    if Given(o) then Sent(Text(o.value)) else Absent
  }

  /** `SET ... WHERE PhoneNumber = @oldPhoneNumber` applied to one matching row. */
  function ApplyProfile(b: ProfileBody, m: Member): Member {
    MergedFields(ProfilePatch(b), m).(phone := if Given(b.phone) then b.phone.value else m.phone)
  }

  const PhoneRequired: string := "Current phone number is required"
  const NothingToUpdate: string := "No fields to update"
  const ProfileFailed: string := "Failed to update profile"
  const ProfileUpdated: string := "Profile updated successfully"

  /** The whole endpoint. The database refuses the UPDATE (500) when a row is renamed to a phone
      another member holds. */
  function UpdateProfile(db: Db, b: ProfileBody): (r: Updated)
    ensures r.outcome.Fail? ==> r.db == db
    ensures !Given(b.oldPhone) ==> r.outcome == Fail(400, PhoneRequired)
    ensures Given(b.oldPhone) ==> (r.outcome == Fail(400, NothingToUpdate) <==> |SetList(b).0| == 0)
    ensures r.outcome.Ok? <==> Given(b.oldPhone) && |Written(b)| > 0
                               && !(HasPhone(db.members, b.oldPhone.value) && Given(b.phone)
                                    && b.phone.value != b.oldPhone.value && HasPhone(db.members, b.phone.value))
    ensures r.outcome.Ok? ==> r.outcome.value == ProfileUpdated && r.db == db.(members := r.db.members)
                              && |r.db.members| == |db.members|
  {
    if !Given(b.oldPhone) then Updated(Fail(400, PhoneRequired), db)
    else if |SetList(b).0| == 0 then Updated(Fail(400, NothingToUpdate), db)
    else
      var current := b.oldPhone.value;
      if HasPhone(db.members, current) && Given(b.phone) && b.phone.value != current && HasPhone(db.members, b.phone.value) then
        Updated(Fail(500, ProfileFailed), db)
      else
        var members := seq(|db.members|, i requires 0 <= i < |db.members| =>
                             if db.members[i].phone == current then ApplyProfile(b, db.members[i]) else db.members[i]);
        Updated(Ok(ProfileUpdated), db.(members := members))
  }

  // ---------------------------------------------------------------------------------------------
  // Laws.

  /** Each truthy field gives exactly one `SET` fragment with its input, falsy fields give none,
      and the fragments follow handler order. */
  lemma SetListOnePerField(b: ProfileBody)
    ensures forall s :: Rank(s) < 13 ==> (Given(BodyField(b, s)) <==> s in Written(b))
    ensures forall i, j :: 0 <= i < j < |Written(b)| ==> Rank(Written(b)[i]) < Rank(Written(b)[j])
    ensures forall j :: 0 <= j < |SetList(b).0| ==> SetList(b).0[j] == Fragment(Written(b)[j])
  {
    SlotsInOrder();
  }

  /** The patch sends exactly the columns whose body field is truthy. */
  lemma PatchField(b: ProfileBody, c: Column)
    ensures FieldOf(ProfilePatch(b), c) == SentIf(BodyField(b, Col(c)))
  {
  }

  /** A successful update writes, on each row under the current phone, the new phone when one is
      sent, each column whose field is truthy, and nothing else: every other column (Surname,
      othernames, DOB, Password included) keeps its value. */
  lemma ProfileWritesSentColumns(db: Db, b: ProfileBody, i: nat, c: Column)
    requires UpdateProfile(db, b).outcome.Ok?
    requires i < |db.members| && db.members[i].phone == b.oldPhone.value
    ensures var row := UpdateProfile(db, b).db.members[i];
            row.id == db.members[i].id
            && row.phone == (if Given(b.phone) then b.phone.value else db.members[i].phone)
            && ColumnOf(row, c) == if Given(BodyField(b, Col(c))) then Text(BodyField(b, Col(c)).value)
                                   else ColumnOf(db.members[i], c)
  {
    var m := db.members[i];
    assert UpdateProfile(db, b).db.members[i] == ApplyProfile(b, m);
    MergedColumn(ProfilePatch(b), m, c);
    PatchField(b, c);
  }

  /** Rows under other phones are not touched. */
  lemma ProfileKeepsOtherRows(db: Db, b: ProfileBody, i: nat)
    requires UpdateProfile(db, b).outcome.Ok?
    requires i < |db.members| && db.members[i].phone != b.oldPhone.value
    ensures UpdateProfile(db, b).db.members[i] == db.members[i]
  {
  }

  /** The SQL text and the row change agree: a column is in the `SET` list exactly when the merge
      sends it. */
  lemma SetListMatchesPatch(b: ProfileBody, c: Column)
    ensures Col(c) in Written(b) <==> FieldOf(ProfilePatch(b), c).Sent?
    ensures NewPhone in Written(b) <==> Given(b.phone)
  {
    SlotsInOrder();
    PatchField(b, c);
  }

  /** The handler does not check how many rows the UPDATE touched: an unknown current phone is
      answered with success and changes nothing. */
  lemma UnknownPhoneSucceeds(db: Db, b: ProfileBody)
    requires Given(b.oldPhone) && !HasPhone(db.members, b.oldPhone.value) && |SetList(b).0| > 0
    ensures UpdateProfile(db, b) == Updated(Ok(ProfileUpdated), db)
  {
    var members := UpdateProfile(db, b).db.members;
    assert members == db.members;
  }

  /** A successful update keeps phones unique. */
  lemma ProfileKeepsUniquePhones(db: Db, b: ProfileBody)
    requires UniquePhones(db.members)
    requires UpdateProfile(db, b).outcome.Ok?
    ensures UniquePhones(UpdateProfile(db, b).db.members)
  {
    var current := b.oldPhone.value;
    var after := UpdateProfile(db, b).db.members;
    if HasPhone(db.members, current) {
      var k :| 0 <= k < |db.members| && db.members[k].phone == current;
      var q := after[k].phone;
      forall i | 0 <= i < |db.members| && i != k ensures after[i] == db.members[i] && db.members[i].phone != q {
        assert db.members[i].phone != current;
      }
      ReplaceKeepsUnique(db.members, after, k, q);
    } else {
      assert after == db.members;
    }
  }
}
