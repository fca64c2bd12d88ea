/** PUT /admin/member/:phone (merge the body into the stored row) and PUT /admin/change-phone
    (rename a member's phone everywhere), routes/admin.js. */
module MemberUpdate {
  import opened Wrappers
  import opened Records
  import opened Sorting
  import opened DateFilter
  import opened Totals

  /** One field of a JSON body: left out (`undefined`), or given, possibly as `null`. */
  datatype Field = Absent | Sent(v: Value)

  /** The body of PUT /member/:phone, one entry per column the handler merges. */
  datatype MemberPatch = MemberPatch(
    phone: Field, phone2: Field, surname: Field, othernames: Field, title: Field, honTitle: Field,
    sex: Field, quarters: Field, ward: Field, state: Field, town: Field, dob: Field,
    qualifications: Field, profession: Field, exitdate: Field, password: Field, email: Field)

  /** The handler's response together with the database it leaves behind. */
  datatype Updated = Updated(outcome: Outcome<string>, db: Db)

  const NotFound: string := "Member not found"
  const PhoneInUse: string := "Phone number already in use by another member"
  const UpdateFailed: string := "Failed to update member"
  const UpdatedMessage: string := "Member updated successfully"

  // ---------------------------------------------------------------------------------------------
  // Merging.

  /** `req.body[field] !== undefined ? req.body[field] : existing[field]`. */
  function Merge(f: Field, existing: Value): (r: Value)
    ensures f.Sent? ==> r == f.v
    ensures f.Absent? ==> r == existing
  {
    match f
    case Absent => existing
    case Sent(v) => v
  }

  /** The date columns: left out keeps the stored date, `''` clears it, anything else replaces it. */
  function MergeDate(f: Field, existing: Value): (r: Value)
    ensures f.Absent? ==> r == existing
    ensures f == Sent(Text("")) ==> r == Null
    ensures f.Sent? && f != Sent(Text("")) ==> r == f.v
  {
    match f
    case Absent => existing
    case Sent(v) => if v == Text("") then Null else v
  }

  function PhoneValue(m: Member): Value {
    Text(m.phone)
  }

  /** The phone the merged row carries when the member keyed `phone` is updated: the body's value
      when sent (which may be NULL or `''`), the stored phone otherwise. */
  function NewPhone(p: MemberPatch, phone: string): (r: Value)
    ensures p.phone.Absent? ==> r == Text(phone)
    ensures p.phone.Sent? ==> r == p.phone.v
  {
    Merge(p.phone, Text(phone))
  }

  /** The merged row, still carrying the stored phone: the new phone is checked and set separately. */
  function MergedFields(p: MemberPatch, m: Member): Member {
    m.(phone2 := Merge(p.phone2, m.phone2),
       surname := Merge(p.surname, m.surname),
       othernames := Merge(p.othernames, m.othernames),
       title := Merge(p.title, m.title),
       honTitle := Merge(p.honTitle, m.honTitle),
       sex := Merge(p.sex, m.sex),
       quarters := Merge(p.quarters, m.quarters),
       ward := Merge(p.ward, m.ward),
       state := Merge(p.state, m.state),
       town := Merge(p.town, m.town),
       dob := MergeDate(p.dob, m.dob),
       qualifications := Merge(p.qualifications, m.qualifications),
       profession := Merge(p.profession, m.profession),
       exitdate := MergeDate(p.exitdate, m.exitdate),
       password := Merge(p.password, m.password),
       email := Merge(p.email, m.email))
  }

  /** The columns the handler merges besides PhoneNumber. */
  datatype Column =
    Phone2 | Surname | Othernames | Title | HonTitle | Sex | Quarters | Ward | State | Town | Dob
    | Qualifications | Profession | Exitdate | Password | Email

  predicate IsDateColumn(c: Column) {
    c == Dob || c == Exitdate
  }

  function ColumnOf(m: Member, c: Column): Value {
    match c
    case Phone2 => m.phone2
    case Surname => m.surname
    case Othernames => m.othernames
    case Title => m.title
    case HonTitle => m.honTitle
    case Sex => m.sex
    case Quarters => m.quarters
    case Ward => m.ward
    case State => m.state
    case Town => m.town
    case Dob => m.dob
    case Qualifications => m.qualifications
    case Profession => m.profession
    case Exitdate => m.exitdate
    case Password => m.password
    case Email => m.email
  }

  function FieldOf(p: MemberPatch, c: Column): Field {
    match c
    case Phone2 => p.phone2
    case Surname => p.surname
    case Othernames => p.othernames
    case Title => p.title
    case HonTitle => p.honTitle
    case Sex => p.sex
    case Quarters => p.quarters
    case Ward => p.ward
    case State => p.state
    case Town => p.town
    case Dob => p.dob
    case Qualifications => p.qualifications
    case Profession => p.profession
    case Exitdate => p.exitdate
    case Password => p.password
    case Email => p.email
  }

  /** Every merged column holds what the body sent (a date sent as `''` becoming NULL) and, where
      the body left the column out, the stored value; Id and PhoneNumber are not touched. */
  lemma MergedColumn(p: MemberPatch, m: Member, c: Column)
    ensures MergedFields(p, m).id == m.id && MergedFields(p, m).phone == m.phone
    ensures FieldOf(p, c).Absent? ==> ColumnOf(MergedFields(p, m), c) == ColumnOf(m, c)
    ensures FieldOf(p, c).Sent? && !(IsDateColumn(c) && FieldOf(p, c).v == Text("")) ==>
              ColumnOf(MergedFields(p, m), c) == FieldOf(p, c).v
    ensures IsDateColumn(c) && FieldOf(p, c) == Sent(Text("")) ==> ColumnOf(MergedFields(p, m), c) == Null
  {
  }

  /** The phone a member is found under after a successful update. */
  function PhoneAfter(p: MemberPatch, phone: string): string {
    match p.phone
    case Sent(Text(s)) => s
    case _ => phone
  }

  /** `req.body.PhoneNumber && req.body.PhoneNumber !== req.params.phone`. */
  predicate ChangesPhone(p: MemberPatch, phone: string) {
    p.phone.Sent? && Truthy(p.phone.v) && p.phone.v.s != phone
  }

  /** `UPDATE Members SET ... WHERE PhoneNumber = @oldPhone`: every matching row takes the merged
      values and keeps its own Id. */
  function UpdateRows(members: seq<Member>, phone: string, merged: Member): (r: seq<Member>)
    ensures |r| == |members|
    ensures forall i :: 0 <= i < |members| ==>
              r[i] == if members[i].phone == phone then merged.(id := members[i].id) else members[i]
  {
    seq(|members|, i requires 0 <= i < |members| =>
          if members[i].phone == phone then merged.(id := members[i].id) else members[i])
  }

  /** The whole endpoint. The database refuses the UPDATE (500) when the merged phone is NULL or
      belongs to another member, which the 409 check misses for a falsy new phone such as `''`. */
  function UpdateMember(db: Db, phone: string, p: MemberPatch): (r: Updated)
    ensures r.outcome.Fail? ==> r.db == db
    ensures r.outcome.Fail? && r.outcome.status == 404 <==> !HasPhone(db.members, phone)
    ensures r.outcome.Fail? && r.outcome.status == 409 <==>
              HasPhone(db.members, phone) && ChangesPhone(p, phone) && HasPhone(db.members, p.phone.v.s)
    ensures r.outcome.Ok? <==> HasPhone(db.members, phone)
                               && !(ChangesPhone(p, phone) && HasPhone(db.members, p.phone.v.s))
                               && NewPhone(p, phone).Text?
                               && (NewPhone(p, phone).s == phone || !HasPhone(db.members, NewPhone(p, phone).s))
    ensures r.outcome.Ok? ==> r.outcome.value == UpdatedMessage
                              && r.db == db.(members := r.db.members)
  {
    match Owner(db.members, phone)
    case None => Updated(Fail(404, NotFound), db)
    case Some(existing) =>
      if ChangesPhone(p, phone) && HasPhone(db.members, p.phone.v.s) then Updated(Fail(409, PhoneInUse), db)
      else
        var newPhone := Merge(p.phone, PhoneValue(existing));
        if newPhone.Null? || (newPhone.s != phone && HasPhone(db.members, newPhone.s)) then Updated(Fail(500, UpdateFailed), db)
        else
          var merged := MergedFields(p, existing).(phone := newPhone.s);
          Updated(Ok(UpdatedMessage), db.(members := UpdateRows(db.members, phone, merged)))
  }

  // ---------------------------------------------------------------------------------------------
  // Renaming a phone.

  datatype PhoneChange = PhoneChange(oldPhone: Option<string>, newPhone: Option<string>)

  const BothRequired: string := "Both old and new phone numbers are required."
  const OldNotFound: string := "Old phone number not found."
  const NewExists: string := "New phone number already exists."
  const RenameFailed: string := "Failed to update phone numbers."
  const Renamed: string := "Phone number updated successfully in all records."

  function RenameMember(m: Member, from: string, to: string): Member {
    if m.phone == from then m.(phone := to) else m
  }

  function RenameEntry(e: LedgerEntry, from: string, to: string): LedgerEntry {
    if e.phone == from then e.(phone := to) else e
  }

  /** `UPDATE Members SET PhoneNumber = @newPhone WHERE PhoneNumber = @oldPhone`. */
  function RenameMembers(members: seq<Member>, from: string, to: string): (r: seq<Member>)
    ensures |r| == |members|
    ensures forall i :: 0 <= i < |members| ==> r[i] == RenameMember(members[i], from, to)
  {
    seq(|members|, i requires 0 <= i < |members| => RenameMember(members[i], from, to))
  }

  /** `UPDATE memberledger SET phoneno = @newPhone WHERE phoneno = @oldPhone`. */
  function RenameLedger(ledger: seq<LedgerEntry>, from: string, to: string): (r: seq<LedgerEntry>)
    ensures |r| == |ledger|
    ensures forall i :: 0 <= i < |ledger| ==> r[i] == RenameEntry(ledger[i], from, to)
  {
    seq(|ledger|, i requires 0 <= i < |ledger| => RenameEntry(ledger[i], from, to))
  }

  /** The whole endpoint. `fault` stands for either UPDATE failing inside the transaction, which
      is then rolled back. */
  function ChangePhone(db: Db, req: PhoneChange, fault: bool): (r: Updated)
    ensures r.outcome.Fail? ==> r.db == db
    ensures r.outcome.Fail? && r.outcome.status == 400 <==> !Given(req.oldPhone) || !Given(req.newPhone)
    ensures r.outcome.Fail? && r.outcome.status == 404 <==>
              Given(req.oldPhone) && Given(req.newPhone) && !HasPhone(db.members, req.oldPhone.value)
    ensures r.outcome.Fail? && r.outcome.status == 409 <==>
              Given(req.oldPhone) && Given(req.newPhone) && HasPhone(db.members, req.oldPhone.value)
              && HasPhone(db.members, req.newPhone.value)
    ensures r.outcome.Ok? <==>
              Given(req.oldPhone) && Given(req.newPhone) && HasPhone(db.members, req.oldPhone.value)
              && !HasPhone(db.members, req.newPhone.value) && !fault
  {
    if !Given(req.oldPhone) || !Given(req.newPhone) then Updated(Fail(400, BothRequired), db)
    else
      var from, to := req.oldPhone.value, req.newPhone.value;
      if !HasPhone(db.members, from) then Updated(Fail(404, OldNotFound), db)
      else if HasPhone(db.members, to) then Updated(Fail(409, NewExists), db)
      else if fault then Updated(Fail(500, RenameFailed), db)
      else Updated(Ok(Renamed), db.(members := RenameMembers(db.members, from, to), ledger := RenameLedger(db.ledger, from, to)))
  }

  // ---------------------------------------------------------------------------------------------
  // Laws of the update.

  /** Writing a member's own row back over it changes nothing. */
  lemma UpdateRowsOwnRow(members: seq<Member>, phone: string, m: Member)
    requires UniquePhones(members) && Owner(members, phone) == Some(m)
    ensures UpdateRows(members, phone, m) == members
  {
    var after := UpdateRows(members, phone, m);
    forall i | 0 <= i < |members| ensures after[i] == members[i] {
      if members[i].phone == phone {
        assert Owner(members, phone) == Some(members[i]);
      }
    }
  }

  /** A body that sends no field rewrites the member's row with its own values. */
  lemma EmptyPatchKeepsDb(db: Db, phone: string)
    requires UniquePhones(db.members) && HasPhone(db.members, phone)
    ensures var r := UpdateMember(db, phone, MemberPatch(Absent, Absent, Absent, Absent, Absent, Absent, Absent, Absent,
                                                        Absent, Absent, Absent, Absent, Absent, Absent, Absent, Absent, Absent));
            r.outcome.Ok? && r.db == db
  {
    var p := MemberPatch(Absent, Absent, Absent, Absent, Absent, Absent, Absent, Absent,
                         Absent, Absent, Absent, Absent, Absent, Absent, Absent, Absent, Absent);
    var existing := Owner(db.members, phone).value;
    assert MergedFields(p, existing).(phone := phone) == existing;
    UpdateRowsOwnRow(db.members, phone, existing);
  }

  /** The row a successful update writes. */
  function NewRow(db: Db, phone: string, p: MemberPatch): Member
    requires HasPhone(db.members, phone)
  {
    MergedFields(p, Owner(db.members, phone).value).(phone := PhoneAfter(p, phone))
  }

  lemma UpdateWrites(db: Db, phone: string, p: MemberPatch)
    requires UpdateMember(db, phone, p).outcome.Ok?
    ensures HasPhone(db.members, phone)
    ensures UpdateMember(db, phone, p).db == db.(members := UpdateRows(db.members, phone, NewRow(db, phone, p)))
  {
    var existing := Owner(db.members, phone).value;
    assert Merge(p.phone, PhoneValue(existing)) == Text(PhoneAfter(p, phone));
  }

  /** Giving one row of a table a phone no other row has keeps the phones unique. */
  lemma ReplaceKeepsUnique(members: seq<Member>, after: seq<Member>, k: nat, q: string)
    requires UniquePhones(members) && |after| == |members| && k < |members| && after[k].phone == q
    requires forall i :: 0 <= i < |members| && i != k ==> after[i] == members[i] && members[i].phone != q
    ensures UniquePhones(after)
  {
  }

  /** A successful update keeps phones unique: no two rows share a phone. */
  lemma UpdateKeepsUniquePhones(db: Db, phone: string, p: MemberPatch)
    requires UniquePhones(db.members)
    requires UpdateMember(db, phone, p).outcome.Ok?
    ensures UniquePhones(UpdateMember(db, phone, p).db.members)
  {
    UpdateWrites(db, phone, p);
    var q := PhoneAfter(p, phone);
    assert q == phone || !HasPhone(db.members, q);
    var after := UpdateRows(db.members, phone, NewRow(db, phone, p));
    var k :| 0 <= k < |db.members| && db.members[k].phone == phone;
    forall i | 0 <= i < |db.members| && i != k ensures after[i] == db.members[i] && db.members[i].phone != q {
      assert db.members[i].phone != phone;
    }
    ReplaceKeepsUnique(db.members, after, k, q);
  }

  /** After a successful update the member is found under its new phone, and its old phone is
      free when it changed. */
  lemma UpdateMovesKey(db: Db, phone: string, p: MemberPatch)
    requires UniquePhones(db.members)
    requires UpdateMember(db, phone, p).outcome.Ok?
    ensures var after := UpdateMember(db, phone, p).db.members;
            HasPhone(after, PhoneAfter(p, phone)) && (PhoneAfter(p, phone) != phone ==> !HasPhone(after, phone))
  {
    UpdateWrites(db, phone, p);
    var after := UpdateRows(db.members, phone, NewRow(db, phone, p));
    var k :| 0 <= k < |db.members| && db.members[k].phone == phone;
    assert after[k].phone == PhoneAfter(p, phone);
    forall i | 0 <= i < |after| && i != k ensures after[i].phone != phone {
      assert db.members[i].phone != phone;
    }
  }

  /** Merging a body into a row it was already merged into gives the same row. */
  lemma MergeTwice(p: MemberPatch, m: Member, q: string)
    ensures MergedFields(p, MergedFields(p, m).(phone := q)) == MergedFields(p, m).(phone := q)
  {
  }

  /** Sending the same body again, to the member's new address, changes nothing more. */
  lemma UpdateIdempotent(db: Db, phone: string, p: MemberPatch)
    requires UniquePhones(db.members)
    requires UpdateMember(db, phone, p).outcome.Ok?
    ensures var once := UpdateMember(db, phone, p).db;
            var again := UpdateMember(once, PhoneAfter(p, phone), p);
            again.outcome.Ok? && again.db == once
  {
    var k := RewrittenRow(db, phone, p);
    var q := PhoneAfter(p, phone);
    var row := NewRow(db, phone, p);
    var once := UpdateMember(db, phone, p).db;
    MergeTwice(p, db.members[k], q);
    UpdateOkWhen(once, q, p);
    UpdateRowsOwnRow(once.members, q, row);
  }

  /** Where the rewritten row sits, and that it is found under its new phone. */
  lemma RewrittenRow(db: Db, phone: string, p: MemberPatch) returns (k: nat)
    requires UniquePhones(db.members)
    requires UpdateMember(db, phone, p).outcome.Ok?
    ensures k < |db.members| && db.members[k].phone == phone && Owner(db.members, phone) == Some(db.members[k])
    ensures NewRow(db, phone, p) == MergedFields(p, db.members[k]).(phone := PhoneAfter(p, phone))
    ensures p.phone.Absent? || p.phone == Sent(Text(PhoneAfter(p, phone)))
    ensures var once := UpdateMember(db, phone, p).db;
            UniquePhones(once.members) && Owner(once.members, PhoneAfter(p, phone)) == Some(NewRow(db, phone, p))
  {
    UpdateWrites(db, phone, p);
    UpdateKeepsUniquePhones(db, phone, p);
    var once := UpdateMember(db, phone, p).db;
    k :| 0 <= k < |db.members| && db.members[k].phone == phone;
    assert once.members[k] == NewRow(db, phone, p);
  }

  /** A body that names the member's current phone (or none) is accepted and rewrites the row. */
  lemma UpdateOkWhen(db: Db, phone: string, p: MemberPatch)
    requires HasPhone(db.members, phone)
    requires p.phone.Absent? || p.phone == Sent(Text(phone))
    ensures UpdateMember(db, phone, p).outcome.Ok?
    ensures UpdateMember(db, phone, p).db == db.(members := UpdateRows(db.members, phone, NewRow(db, phone, p)))
  {
  }

  // ---------------------------------------------------------------------------------------------
  // Laws of the rename.

  /** Every ledger row belongs to a member (the foreign key the schema implies). */
  ghost predicate LedgerOwned(db: Db) {
    forall i :: 0 <= i < |db.ledger| ==> HasPhone(db.members, db.ledger[i].phone)
  }

  lemma RenameLedgerSnoc(ledger: seq<LedgerEntry>, e: LedgerEntry, from: string, to: string)
    ensures RenameLedger(ledger + [e], from, to) == RenameLedger(ledger, from, to) + [RenameEntry(e, from, to)]
  {
  }

  /** What one ledger row adds to the renamed phone's total. */
  function Gain(e: LedgerEntry, from: string, to: string, w: Window): int {
    if InWindow(e.transdate, w) && (e.phone == from || e.phone == to) then e.amount else 0
  }

  lemma RenamedStep(renamed: seq<LedgerEntry>, e: LedgerEntry, from: string, to: string, w: Window)
    ensures PhoneTotal(renamed + [RenameEntry(e, from, to)], to, w) == PhoneTotal(renamed, to, w) + Gain(e, from, to, w)
  {
    PickedSumSnoc(renamed, RenameEntry(e, from, to), OfPhone(to), w);
  }

  lemma OriginalStep(init: seq<LedgerEntry>, e: LedgerEntry, from: string, to: string, w: Window)
    requires from != to
    ensures PhoneTotal(init + [e], from, w) + PhoneTotal(init + [e], to, w)
            == PhoneTotal(init, from, w) + PhoneTotal(init, to, w) + Gain(e, from, to, w)
  {
    PickedSumSnoc(init, e, OfPhone(to), w);
    PickedSumSnoc(init, e, OfPhone(from), w);
  }

  /** The renamed phone's total is the old phone's total plus whatever was already booked under
      the new phone. */
  lemma {:induction false} RenameMovesTotal(ledger: seq<LedgerEntry>, from: string, to: string, w: Window)
    requires from != to
    ensures PhoneTotal(RenameLedger(ledger, from, to), to, w) == PhoneTotal(ledger, from, w) + PhoneTotal(ledger, to, w)
  {
    if |ledger| == 0 {
      assert RenameLedger(ledger, from, to) == [];
    } else {
      var init, e := ledger[..|ledger| - 1], ledger[|ledger| - 1];
      assert ledger == init + [e];
      RenameMovesTotal(init, from, to, w);
      RenameLedgerSnoc(init, e, from, to);
      RenamedStep(RenameLedger(init, from, to), e, from, to, w);
      OriginalStep(init, e, from, to, w);
    }
  }

  /** Once renamed, the old phone has nothing booked under it. */
  lemma {:induction false} RenameEmptiesOld(ledger: seq<LedgerEntry>, from: string, to: string, w: Window)
    requires from != to
    ensures PhoneTotal(RenameLedger(ledger, from, to), from, w) == 0
  {
    var renamed := RenameLedger(ledger, from, to);
    UnusedPhoneTotal(renamed, from, w);
  }

  /** Every other phone keeps its total. */
  lemma {:induction false} RenameKeepsOtherTotals(ledger: seq<LedgerEntry>, from: string, to: string, phone: string, w: Window)
    requires phone != from && phone != to
    ensures PhoneTotal(RenameLedger(ledger, from, to), phone, w) == PhoneTotal(ledger, phone, w)
  {
    if |ledger| == 0 {
      assert RenameLedger(ledger, from, to) == [];
    } else {
      var init, e := ledger[..|ledger| - 1], ledger[|ledger| - 1];
      assert ledger == init + [e];
      RenameKeepsOtherTotals(init, from, to, phone, w);
      RenameLedgerSnoc(init, e, from, to);
      PickedSumSnoc(RenameLedger(init, from, to), RenameEntry(e, from, to), OfPhone(phone), w);
      PickedSumSnoc(init, e, OfPhone(phone), w);
    }
  }

  /** A phone no ledger row carries has a zero total. */
  lemma UnusedPhoneTotal(ledger: seq<LedgerEntry>, phone: string, w: Window)
    requires forall i :: 0 <= i < |ledger| ==> ledger[i].phone != phone
    ensures PhoneTotal(ledger, phone, w) == 0
  {
    PickContents(ledger, OfPhone(phone), w);
    var picked := Pick(ledger, OfPhone(phone), w);
    if |picked| > 0 {
      assert false;
    }
  }

  lemma ChangePhoneWrites(db: Db, req: PhoneChange)
    requires ChangePhone(db, req, false).outcome.Ok?
    ensures req.oldPhone.Some? && req.newPhone.Some? && req.oldPhone.value != req.newPhone.value
    ensures HasPhone(db.members, req.oldPhone.value) && !HasPhone(db.members, req.newPhone.value)
    ensures ChangePhone(db, req, false).db
            == db.(members := RenameMembers(db.members, req.oldPhone.value, req.newPhone.value),
                   ledger := RenameLedger(db.ledger, req.oldPhone.value, req.newPhone.value))
  {
  }

  /** A successful rename keeps phones unique and the ledger's ownership: the member is found
      under the new phone only. */
  lemma ChangePhoneKeepsKeys(db: Db, req: PhoneChange)
    requires UniquePhones(db.members) && LedgerOwned(db)
    requires ChangePhone(db, req, false).outcome.Ok?
    ensures var after := ChangePhone(db, req, false).db;
            UniquePhones(after.members) && LedgerOwned(after)
            && HasPhone(after.members, req.newPhone.value) && !HasPhone(after.members, req.oldPhone.value)
  {
    ChangePhoneWrites(db, req);
    var from, to := req.oldPhone.value, req.newPhone.value;
    var after := RenameMembers(db.members, from, to);
    var k :| 0 <= k < |db.members| && db.members[k].phone == from;
    assert after[k].phone == to;
    var ledger := RenameLedger(db.ledger, from, to);
    forall i | 0 <= i < |ledger| ensures HasPhone(after, ledger[i].phone) {
      var j :| 0 <= j < |db.members| && db.members[j].phone == db.ledger[i].phone;
      assert after[j].phone == ledger[i].phone;
    }
  }

  /** A successful rename moves the member's whole payment history to the new phone. */
  lemma ChangePhoneMovesHistory(db: Db, req: PhoneChange, w: Window)
    requires LedgerOwned(db)
    requires ChangePhone(db, req, false).outcome.Ok?
    ensures var after := ChangePhone(db, req, false).db;
            PhoneTotal(after.ledger, req.newPhone.value, w) == PhoneTotal(db.ledger, req.oldPhone.value, w)
            && PhoneTotal(after.ledger, req.oldPhone.value, w) == 0
  {
    ChangePhoneWrites(db, req);
    var from, to := req.oldPhone.value, req.newPhone.value;
    forall i | 0 <= i < |db.ledger| ensures db.ledger[i].phone != to {
      assert HasPhone(db.members, db.ledger[i].phone);
    }
    UnusedPhoneTotal(db.ledger, to, w);
    RenameMovesTotal(db.ledger, from, to, w);
    RenameEmptiesOld(db.ledger, from, to, w);
  }

  /** Every other phone's total survives a rename. */
  lemma ChangePhoneKeepsOthers(db: Db, req: PhoneChange, phone: string, w: Window)
    requires ChangePhone(db, req, false).outcome.Ok?
    requires phone != req.oldPhone.value && phone != req.newPhone.value
    ensures PhoneTotal(ChangePhone(db, req, false).db.ledger, phone, w) == PhoneTotal(db.ledger, phone, w)
  {
    RenameKeepsOtherTotals(db.ledger, req.oldPhone.value, req.newPhone.value, phone, w);
  }

  /** Renaming back restores the database exactly. */
  lemma ChangePhoneRoundTrip(db: Db, req: PhoneChange)
    requires LedgerOwned(db)
    requires ChangePhone(db, req, false).outcome.Ok?
    ensures var back := ChangePhone(ChangePhone(db, req, false).db, PhoneChange(req.newPhone, req.oldPhone), false);
            back.outcome.Ok? && back.db == db
  {
    ChangePhoneWrites(db, req);
    var from, to := req.oldPhone.value, req.newPhone.value;
    var after := ChangePhone(db, req, false).db;
    var k :| 0 <= k < |db.members| && db.members[k].phone == from;
    assert after.members[k].phone == to;
    assert !HasPhone(after.members, from);
    assert RenameMembers(after.members, to, from) == db.members;
    forall i | 0 <= i < |db.ledger| ensures db.ledger[i].phone != to {
      assert HasPhone(db.members, db.ledger[i].phone);
    }
    assert RenameLedger(after.ledger, to, from) == db.ledger;
  }
}
