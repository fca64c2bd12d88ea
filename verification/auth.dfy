/** Reading the bearer token (the two `verifyToken` middlewares, server.js and routes/admin.js) and
    member login (POST /login, server.js). Token signatures and sessions are not modelled. The
    server.js middleware is declared but not mounted on any server.js route; `ServerToken` states
    what it would do if it were. */
module Auth {
  import opened Wrappers
  import opened Records
  import opened Decimal
  import opened DateFilter

  const NoToken: string := "No token provided"
  const BearerPrefix: string := "Bearer "

  predicate StartsWith(s: string, prefix: string) {
    |prefix| <= |s| && s[..|prefix|] == prefix
  }

  // ---------------------------------------------------------------------------------------------
  // Tokens.

  /** server.js `verifyToken`: no header (or an empty one) is a 403; a `Bearer ` prefix is cut off
      and any other header is used as the token unchanged. */
  function ServerToken(header: Option<string>): (r: Outcome<string>)
    ensures r.Fail? <==> !Given(header)
    ensures r.Fail? ==> r.status == 403 && r.message == NoToken
    ensures r.Ok? && StartsWith(header.value, BearerPrefix) ==> BearerPrefix + r.value == header.value
    ensures r.Ok? && !StartsWith(header.value, BearerPrefix) ==> r.value == header.value
  {
    if !Given(header) then Fail(403, NoToken)
    else if StartsWith(header.value, BearerPrefix) then Ok(header.value[7..])
    else Ok(header.value)
  }

  /** JavaScript's `s.split(c)` for a one-character separator: the pieces between separators,
      empty pieces included. */
  function Split(s: string, c: char): (r: seq<string>)
    ensures |r| >= 1
    ensures forall i :: 0 <= i < |r| ==> c !in r[i]
  {
    if |s| == 0 then [""]
    else
      var rest := Split(s[1..], c);
      if s[0] == c then [""] + rest
      else
        assert forall i :: 1 <= i < |rest| ==> rest[1..][i - 1] == rest[i];
        [[s[0]] + rest[0]] + rest[1..]
  }

  /** Joining the pieces with the separator gives the text back. */
  lemma {:induction false} SplitJoin(s: string, c: char)
    ensures Join(Split(s, c), [c]) == s
  {
    if |s| > 0 {
      var rest := Split(s[1..], c);
      SplitJoin(s[1..], c);
      assert s == [s[0]] + s[1..];
      if s[0] == c {
        assert Split(s, c)[1..] == rest;
      } else if |rest| > 1 {
        var r := Split(s, c);
        assert r[1..] == rest[1..];
        assert Join(rest, [c]) == rest[0] + [c] + Join(rest[1..], [c]);
      }
    }
  }

  /** A text without the separator is one piece. */
  lemma {:induction false} SplitWithout(s: string, c: char)
    requires c !in s
    ensures Split(s, c) == [s]
  {
    if |s| > 0 {
      SplitWithout(s[1..], c);
      assert s == [s[0]] + s[1..];
    }
  }

  /** A text splits into more than one piece exactly when it holds the separator. */
  lemma SplitCount(s: string, c: char)
    ensures |Split(s, c)| == 1 <==> c !in s
  {
    if c !in s {
      SplitWithout(s, c);
    } else {
      SplitJoin(s, c);
    }
  }

  /** routes/admin.js `verifyToken`: no header is a 403; otherwise the token is
      `header.split(' ')[1]`, `undefined` (here `None`) when the header has no space. */
  function AdminToken(header: Option<string>): (r: Outcome<Option<string>>)
    ensures r.Fail? <==> !Given(header)
    ensures r.Fail? ==> r.status == 403 && r.message == NoToken
    ensures r.Ok? ==> (r.value.None? <==> ' ' !in header.value)
    ensures r.Ok? && r.value.Some? ==> ' ' !in r.value.value
  {
    if !Given(header) then Fail(403, NoToken)
    else
      var pieces := Split(header.value, ' ');
      SplitCount(header.value, ' ');
      if |pieces| >= 2 then Ok(Some(pieces[1])) else Ok(None)
  }

  /** Two separator-free texts around one separator split back into the two texts. */
  lemma {:induction false} SplitAround(w: string, t: string, c: char)
    requires c !in w && c !in t
    ensures Split(w + [c] + t, c) == [w, t]
  {
    var s := w + [c] + t;
    if |w| == 0 {
      assert s[1..] == t;
      SplitWithout(t, c);
    } else {
      assert s[1..] == w[1..] + [c] + t;
      SplitAround(w[1..], t, c);
      assert [w[0]] + w[1..] == w;
    }
  }

  /** Both middlewares read `Bearer <token>` as `<token>` when the token has no space. */
  lemma BearerTokensAgree(t: string)
    requires ' ' !in t
    ensures ServerToken(Some(BearerPrefix + t)) == Ok(t)
    ensures AdminToken(Some(BearerPrefix + t)) == Ok(Some(t))
  {
    var h := BearerPrefix + t;
    assert h[..7] == BearerPrefix;
    assert h[7..] == t;
    assert h == "Bearer" + [' '] + t;
    SplitAround("Bearer", t, ' ');
  }

  /** The middlewares disagree on a header without the prefix: server.js uses it whole, while
      routes/admin.js finds no second piece. */
  lemma BareTokensDisagree(t: string)
    requires |t| > 0 && ' ' !in t
    ensures ServerToken(Some(t)) == Ok(t)
    ensures AdminToken(Some(t)) == Ok(None)
  {
  }

  // ---------------------------------------------------------------------------------------------
  // Login.

  const MaxId: nat := 2147483647

  /** `/^\d+$/.test(identifier) && Number(identifier) <= 2147483647`. */
  predicate IsIdText(s: string) {
    |s| > 0 && AllDigits(s) && ParseDigits(s) <= MaxId
  }

  /** The lookup a login runs: by the integer `Id`, or by `PhoneNumber` with the raw identifier
      (`None` when the body has none, which binds NULL and matches no row). */
  datatype Lookup = ById(id: nat) | ByPhone(phone: Option<string>)

  function Classify(identifier: Option<string>): (r: Lookup)
    ensures r.ById? <==> identifier.Some? && IsIdText(identifier.value)
    ensures r.ById? ==> r.id == ParseDigits(identifier.value) && r.id <= MaxId
    ensures r.ByPhone? ==> r.phone == identifier
  {
    if identifier.Some? && IsIdText(identifier.value) then ById(ParseDigits(identifier.value))
    else ByPhone(identifier)
  }

  /** `WHERE Id = @Identifier` / `WHERE PhoneNumber = @Identifier`. */
  predicate Matches(m: Member, l: Lookup) {
    match l
    case ById(n) => m.id == n
    case ByPhone(p) => p.Some? && m.phone == p.value
  }

  /** The position of `recordset[0]`: the first row the lookup returns, in table order. */
  function FirstMatch(members: seq<Member>, l: Lookup): (r: Option<nat>)
    ensures r.None? <==> forall i :: 0 <= i < |members| ==> !Matches(members[i], l)
    ensures r.Some? ==> r.value < |members| && Matches(members[r.value], l)
                        && forall j :: 0 <= j < r.value ==> !Matches(members[j], l)
  {
    if |members| == 0 then None
    else if Matches(members[0], l) then Some(0)
    else
      var r := FirstMatch(members[1..], l);
      assert forall i :: 1 <= i < |members| ==> members[i] == members[1..][i - 1];
      if r.Some? then Some(r.value + 1) else None
  }

  /** The reply to a login: the user's Id and PhoneNumber, or a 400 naming the offending field. */
  datatype LoginReply = Granted(id: int, phone: string) | Refused(field: string, message: string)

  function LookupName(l: Lookup): string {
    if l.ById? then "Id" else "PhoneNumber"
  }

  /** POST /login. The password comparison is JavaScript's `!==` between the stored column and the
      body's value (`None` for `undefined`), so a NULL stored password matches only a JSON `null`. */
  function Login(members: seq<Member>, identifier: Option<string>, password: Option<Value>): (r: LoginReply)
    ensures r.Refused? && r.field == "identifier" <==>
              forall i :: 0 <= i < |members| ==> !Matches(members[i], Classify(identifier))
    ensures r.Refused? && r.field == "identifier" ==> r.message == LookupName(Classify(identifier)) + " not found"
    ensures r.Refused? && r.field == "password" ==> r.message == "Incorrect password"
    ensures r.Granted? ==> exists i :: 0 <= i < |members| && Matches(members[i], Classify(identifier))
                                       && password == Some(members[i].password)
                                       && r == Granted(members[i].id, members[i].phone)
    ensures r.Refused? ==> r.field == "identifier" || r.field == "password"
  {
    var l := Classify(identifier);
    match FirstMatch(members, l)
    case None => Refused("identifier", LookupName(l) + " not found")
    case Some(k) =>
      var user := members[k];
      if password != Some(user.password) then Refused("password", "Incorrect password")
      else Granted(user.id, user.phone)
  }

  ghost predicate UniqueIds(members: seq<Member>) {
    forall i, j :: 0 <= i < j < |members| ==> members[i].id != members[j].id
  }

  /** A password mismatch is reported only when the identifier names some row, and a refusal on
      the password means that row's stored password differs from the one sent. */
  lemma PasswordRefusal(members: seq<Member>, identifier: Option<string>, password: Option<Value>, i: nat)
    requires UniquePhones(members) && UniqueIds(members)
    requires i < |members| && Matches(members[i], Classify(identifier))
    ensures Login(members, identifier, password).Refused? <==> password != Some(members[i].password)
    ensures Login(members, identifier, password).Granted? ==>
              Login(members, identifier, password) == Granted(members[i].id, members[i].phone)
  {
    var l := Classify(identifier);
    var k := FirstMatch(members, l).value;
    assert k == i;
  }

  /** A member whose phone is not a small digit string logs in with that phone and their password. */
  lemma LoginByPhone(members: seq<Member>, i: nat)
    requires UniquePhones(members) && UniqueIds(members) && i < |members|
    requires !IsIdText(members[i].phone)
    ensures Login(members, Some(members[i].phone), Some(members[i].password)) == Granted(members[i].id, members[i].phone)
  {
    PasswordRefusal(members, Some(members[i].phone), Some(members[i].password), i);
  }

  /** A member logs in with the decimal rendering of their Id (when it fits in 32 bits). */
  lemma LoginById(members: seq<Member>, i: nat)
    requires UniquePhones(members) && UniqueIds(members) && i < |members|
    requires 0 <= members[i].id <= MaxId
    ensures Login(members, Some(Digits(members[i].id)), Some(members[i].password)) == Granted(members[i].id, members[i].phone)
  {
    ParseDigitsOfDigits(members[i].id);
    assert Classify(Some(Digits(members[i].id))) == ById(members[i].id);
    PasswordRefusal(members, Some(Digits(members[i].id)), Some(members[i].password), i);
  }
}
