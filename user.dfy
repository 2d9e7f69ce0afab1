/** A user account: the three field validators that run whenever
    `first_name`, `last_name` or `email` is assigned, and the account
    record the catalog stores. */
module UserModel {
  import opened Common

  const NameMax: nat := 50
  const EmailMax: nat := 120

  /** The stored account. `passwordHash` is the opaque value the hashing
      collaborator produced. */
  datatype UserRec = UserRec(id: Id, firstName: string, lastName: string, email: string,
                             passwordHash: string, isAdmin: bool)

  /** One key of a user dictionary, as the keyword constructor or the
      `setattr` loop of `update_user` receives it. */
  datatype UserEntry =
    | SetFirstName(firstName: string)
    | SetLastName(lastName: string)
    | SetEmail(email: string)
    | SetIsAdmin(isAdmin: bool)
    | SetId(id: Id)
    | SetStamp               // `created_at` or `updated_at`, which the record does not carry
    | Unknown(key: string)   // a key that names no attribute of `User`

  /** The attribute an entry names; "" for the ones the record does not
      represent. */
  function Key(e: UserEntry): string {
    match e
    case SetFirstName(_) => "first_name"
    case SetLastName(_) => "last_name"
    case SetEmail(_) => "email"
    case SetIsAdmin(_) => "is_admin"
    case SetId(_) => "id"
    case SetStamp => ""
    case Unknown(_) => ""
  }

  /** No entry assigns the id. */
  predicate KeepsId(data: seq<UserEntry>) {
    forall i :: 0 <= i < |data| ==> !data[i].SetId?
  }

  /** The `email` attribute, for attribute lookups in a store. */
  function EmailOf(u: UserRec): string { u.email }

  /** The two name validators share one rule: empty is rejected, more than
      50 characters are rejected, and the value is returned unchanged. A
      string of blanks is accepted, unlike a place title. */
  function ValidateName(value: string, field: Field): (r: Result<string>)
    ensures r.Ok? <==> 0 < |value| <= NameMax
    ensures r.Ok? ==> r.value == value
    ensures r.Err? ==> r.error == (if value == [] then Required(field) else TooLong(field, NameMax))
  {
    if value == [] then Err(Required(field))
    else if |value| > NameMax then Err(TooLong(field, NameMax))
    else Ok(value)
  }

  function ValidateFirstName(value: string): Result<string> { ValidateName(value, FirstName) }

  function ValidateLastName(value: string): Result<string> { ValidateName(value, LastName) }

  /** No '@' in s[lo..hi]. */
  predicate NoAt(s: string, lo: nat, hi: nat)
    requires hi <= |s|
  {
    forall t :: lo <= t < hi ==> s[t] != '@'
  }

  /** The index of the first '@' at or after `from`, or |s|. */
  function FirstAt(s: string, from: nat): (k: nat)
    requires from <= |s|
    ensures from <= k <= |s|
    ensures k < |s| ==> s[k] == '@'
    ensures NoAt(s, from, k)
    decreases |s| - from
  {
    if from == |s| || s[from] == '@' then from else FirstAt(s, from + 1)
  }

  /** Whether some '.' lies in s[lo..hi]. */
  function HasDot(s: string, lo: nat, hi: nat): (b: bool)
    requires hi <= |s|
    ensures b <==> exists d :: lo <= d < hi && s[d] == '.'
    decreases hi - lo
  {
    if hi <= lo then false
    else s[lo] == '.' || HasDot(s, lo + 1, hi)
  }

  /** The pattern matched with its '@' at `i` and its '.' at `j`. */
  ghost predicate ShapeAt(s: string, i: int, j: int) {
    0 < i && i + 1 < j && j + 1 < |s| && s[i] == '@' && s[j] == '.'
    && NoAt(s, 0, i) && NoAt(s, i + 1, j) && s[j + 1] != '@'
  }

  /** What `re.match(r"[^@]+@[^@]+\.[^@]+", s)` finds at the start of `s`:
      a non-empty run without '@', an '@', a non-empty run without '@', a
      '.', and one more character that is not '@'. The end is not anchored,
      so anything may follow. */
  ghost predicate EmailShape(s: string) {
    exists i, j :: ShapeAt(s, i, j)
  }

  /** The matcher: the '@' must be the first one, and the '.' must come after
      at least one character following it and before the next '@', with one
      more non-'@' character after the dot. */
  function MatchesEmail(s: string): bool {
    var i := FirstAt(s, 0);
    0 < i < |s| && HasDot(s, i + 2, FirstAt(s, i + 1) - 1)
  }

  /** The matcher accepts exactly the strings of the pattern's shape. */
  lemma MatchesEmailIff(s: string)
    ensures MatchesEmail(s) <==> EmailShape(s)
  {
    if MatchesEmail(s) {
      MatchImpliesShape(s);
    }
    if EmailShape(s) {
      ShapeImpliesMatch(s);
    }
  }

  lemma {:induction false} MatchImpliesShape(s: string)
    requires MatchesEmail(s)
    ensures EmailShape(s)
  {
    var i := FirstAt(s, 0);
    var k := FirstAt(s, i + 1);
    var d :| i + 2 <= d < k - 1 && s[d] == '.';
    assert ShapeAt(s, i, d);
  }

  lemma {:induction false} ShapeImpliesMatch(s: string)
    requires EmailShape(s)
    ensures MatchesEmail(s)
  {
    var i', j :| ShapeAt(s, i', j);
    var i := FirstAt(s, 0);
    assert i == i';
    var k := FirstAt(s, i + 1);
    assert j < k - 1;
  }

  /** `validate_email`: empty, then over 120 characters, then the pattern. */
  function ValidateEmail(email: string): (r: Result<string>)
    ensures r.Ok? <==> 0 < |email| <= EmailMax && EmailShape(email)
    ensures r.Ok? ==> r.value == email
    ensures email == [] ==> r == Err(Required(Email))
    ensures |email| > EmailMax ==> r == Err(TooLong(Email, EmailMax))
    ensures 0 < |email| <= EmailMax && !EmailShape(email) ==> r == Err(BadEmailFormat)
  {
    MatchesEmailIff(email);
    if email == [] then Err(Required(Email))
    else if |email| > EmailMax then Err(TooLong(Email, EmailMax))
    else if !MatchesEmail(email) then Err(BadEmailFormat)
    else Ok(email)
  }

  /** Addresses the pattern accepts and rejects; the end is not anchored,
      so trailing '@' characters are accepted. */
  lemma EmailExamples()
    ensures ValidateEmail("a@b.c").Ok?
    ensures ValidateEmail("a@b.c@@").Ok?
    ensures ValidateEmail("a@b") == Err(BadEmailFormat)
    ensures ValidateEmail("@b.c") == Err(BadEmailFormat)
    ensures ValidateEmail("a@.c") == Err(BadEmailFormat)
    ensures ValidateEmail("a@b.@") == Err(BadEmailFormat)
  {
    MatchesEmailIff("a@b.c");
    MatchesEmailIff("a@b.c@@");
    MatchesEmailIff("a@b");
    MatchesEmailIff("@b.c");
    MatchesEmailIff("a@.c");
    MatchesEmailIff("a@b.@");
  }

  /** One assignment of a key. A validated attribute is assigned only when
      its validator accepts the value. `strict` is the keyword
      constructor, which raises a TypeError for a key that names no
      attribute; `setattr` instead adds a plain attribute the record does
      not show. */
  function Assigned(u: UserRec, e: UserEntry, strict: bool): Patched<UserRec> {
    match e
    case SetFirstName(v) =>
      (match ValidateFirstName(v) case Ok(x) => Patched(u.(firstName := x), None) case Err(x) => Patched(u, Some(x)))
    case SetLastName(v) =>
      (match ValidateLastName(v) case Ok(x) => Patched(u.(lastName := x), None) case Err(x) => Patched(u, Some(x)))
    case SetEmail(v) =>
      (match ValidateEmail(v) case Ok(x) => Patched(u.(email := x), None) case Err(x) => Patched(u, Some(x)))
    case SetIsAdmin(b) => Patched(u.(isAdmin := b), None)
    case SetId(v) => Patched(u.(id := v), None)
    case SetStamp => Patched(u, None)
    case Unknown(k) => if strict then Patched(u, Some(UnexpectedKeyword(k))) else Patched(u, None)
  }

  /** The keys in dictionary order; the loop stops at the first rejected
      value, keeping the earlier assignments. */
  function AssignedAll(u: UserRec, data: seq<UserEntry>, strict: bool): Patched<UserRec>
    decreases |data|
  {
    if data == [] then Patched(u, None)
    else
      var q := Assigned(u, data[0], strict);
      if q.failure.Some? then q else AssignedAll(q.value, data[1..], strict)
  }

  /** Whether an entry is assigned without raising. */
  predicate Acceptable(e: UserEntry, strict: bool) {
    match e
    case SetFirstName(v) => 0 < |v| <= NameMax
    case SetLastName(v) => 0 < |v| <= NameMax
    case SetEmail(v) => 0 < |v| <= EmailMax && MatchesEmail(v)
    case Unknown(_) => !strict
    case _ => true
  }

  /** The error a rejected entry raises. */
  function Fault(e: UserEntry, strict: bool): Error
    requires !Acceptable(e, strict)
  {
    match e
    case SetFirstName(v) => ValidateFirstName(v).error
    case SetLastName(v) => ValidateLastName(v).error
    case SetEmail(v) => ValidateEmail(v).error
    case Unknown(k) => UnexpectedKeyword(k)
  }

  /** The index of the first rejected entry, or |data|. */
  function FirstRejected(data: seq<UserEntry>, strict: bool): (k: nat)
    ensures k <= |data|
    ensures forall i :: 0 <= i < k ==> Acceptable(data[i], strict)
    ensures k < |data| ==> !Acceptable(data[k], strict)
  {
    if data == [] then 0
    else if !Acceptable(data[0], strict) then 0
    else 1 + FirstRejected(data[1..], strict)
  }

  /** The value of the last `email` key, the one a dictionary holds. */
  function SuppliedEmail(data: seq<UserEntry>): Option<string>
    decreases |data|
  {
    if data == [] then None
    else
      var rest := SuppliedEmail(data[1..]);
      if rest.Some? then rest else if data[0].SetEmail? then Some(data[0].email) else None
  }

  lemma AssignedAcceptable(u: UserRec, e: UserEntry, strict: bool)
    ensures Assigned(u, e, strict).failure.None? <==> Acceptable(e, strict)
    ensures !Acceptable(e, strict) ==> Assigned(u, e, strict) == Patched(u, Some(Fault(e, strict)))
    ensures Assigned(u, e, strict).value.passwordHash == u.passwordHash
    ensures !e.SetId? ==> Assigned(u, e, strict).value.id == u.id
  {
  }

  /** The loop fails exactly when some value is rejected; it never touches
      the password hash, and the id only through an `id` key. */
  lemma {:induction false} AssignedAllOutcome(u: UserRec, data: seq<UserEntry>, strict: bool)
    ensures AssignedAll(u, data, strict).failure.None? <==> forall i :: 0 <= i < |data| ==> Acceptable(data[i], strict)
    ensures AssignedAll(u, data, strict).value.passwordHash == u.passwordHash
    ensures KeepsId(data) ==> AssignedAll(u, data, strict).value.id == u.id
    decreases |data|
  {
    if data != [] {
      var q := Assigned(u, data[0], strict);
      AssignedAcceptable(u, data[0], strict);
      if q.failure.None? {
        AssignedAllOutcome(q.value, data[1..], strict);
        assert forall i :: 0 <= i < |data| - 1 ==> data[1..][i] == data[i + 1];
      }
    }
  }

  /** The loop stops exactly at the first rejected entry: the entries before
      it are all assigned, and it raises that entry's error. */
  lemma {:induction false} AssignedAllStopsAtFirstRejected(u: UserRec, data: seq<UserEntry>, strict: bool)
    ensures var k := FirstRejected(data, strict);
            AssignedAll(u, data[..k], strict).failure.None?
            && (k == |data| ==> AssignedAll(u, data, strict).failure.None?)
            && (k < |data| ==> AssignedAll(u, data, strict)
                                 == Patched(AssignedAll(u, data[..k], strict).value, Some(Fault(data[k], strict))))
    decreases |data|
  {
    if data != [] {
      var k := FirstRejected(data, strict);
      AssignedAcceptable(u, data[0], strict);
      if Acceptable(data[0], strict) {
        var q := Assigned(u, data[0], strict).value;
        AssignedAllStopsAtFirstRejected(q, data[1..], strict);
        assert data[..k][1..] == data[1..][..k - 1];
        if k == |data| {
          assert data[1..][..k - 1] == data[1..];
        }
      } else {
        assert data[..k] == [];
      }
    }
  }

  /** An attribute no entry names keeps its value, whatever the outcome. */
  lemma {:induction false} AssignedAllKeepsUnnamed(u: UserRec, data: seq<UserEntry>, strict: bool, key: string)
    requires forall j :: 0 <= j < |data| ==> Key(data[j]) != key
    ensures key == "first_name" ==> AssignedAll(u, data, strict).value.firstName == u.firstName
    ensures key == "last_name" ==> AssignedAll(u, data, strict).value.lastName == u.lastName
    ensures key == "email" ==> AssignedAll(u, data, strict).value.email == u.email
    ensures key == "is_admin" ==> AssignedAll(u, data, strict).value.isAdmin == u.isAdmin
    ensures key == "id" ==> AssignedAll(u, data, strict).value.id == u.id
    decreases |data|
  {
    if data != [] && Assigned(u, data[0], strict).failure.None? {
      assert forall j :: 0 <= j < |data[1..]| ==> data[1..][j] == data[j + 1];
      AssignedAllKeepsUnnamed(Assigned(u, data[0], strict).value, data[1..], strict, key);
    }
  }

  /** After a loop that raised nothing, an attribute holds the value of the
      last entry that names it. */
  lemma {:induction false} AssignedAllStoresLast(u: UserRec, data: seq<UserEntry>, strict: bool, i: nat)
    requires i < |data| && AssignedAll(u, data, strict).failure.None?
    requires forall j :: i < j < |data| ==> Key(data[j]) != Key(data[i])
    ensures data[i].SetFirstName? ==> AssignedAll(u, data, strict).value.firstName == data[i].firstName
    ensures data[i].SetLastName? ==> AssignedAll(u, data, strict).value.lastName == data[i].lastName
    ensures data[i].SetEmail? ==> AssignedAll(u, data, strict).value.email == data[i].email
    ensures data[i].SetIsAdmin? ==> AssignedAll(u, data, strict).value.isAdmin == data[i].isAdmin
    ensures data[i].SetId? ==> AssignedAll(u, data, strict).value.id == data[i].id
    decreases |data|
  {
    var q := Assigned(u, data[0], strict);
    AssignedAcceptable(u, data[0], strict);
    if i == 0 {
      forall j | 0 <= j < |data[1..]| ensures Key(data[1..][j]) != Key(data[0]) {
        assert data[1..][j] == data[j + 1];
      }
      AssignedAllKeepsUnnamed(q.value, data[1..], strict, Key(data[0]));
    } else {
      assert data[1..][i - 1] == data[i];
      forall j | i - 1 < j < |data[1..]| ensures Key(data[1..][j]) != Key(data[1..][i - 1]) {
        assert data[1..][j] == data[j + 1];
      }
      AssignedAllStoresLast(q.value, data[1..], strict, i - 1);
    }
  }

  /** The email the loop leaves is the dictionary's `email` value when the
      loop raised nothing, and the old one when there is no such key. */
  lemma {:induction false} AssignedAllStoresSuppliedEmail(u: UserRec, data: seq<UserEntry>, strict: bool)
    ensures SuppliedEmail(data).None? ==> AssignedAll(u, data, strict).value.email == u.email
    ensures SuppliedEmail(data).Some? && AssignedAll(u, data, strict).failure.None?
            ==> AssignedAll(u, data, strict).value.email == SuppliedEmail(data).value
    decreases |data|
  {
    if data != [] {
      var q := Assigned(u, data[0], strict);
      AssignedAcceptable(u, data[0], strict);
      if q.failure.None? {
        AssignedAllStoresSuppliedEmail(q.value, data[1..], strict);
      }
    }
  }

  /** A user object before the constructor assigns any keyword; the hash is
      the one `hash_password` stores. */
  function Unset(id: Id, passwordHash: string): UserRec {
    UserRec(id, "", "", "", passwordHash, false)
  }

  /** `User(**data)`: the keyword constructor assigns the keys in the
      dictionary's order, each through its validator, and raises a
      TypeError for a key that names no attribute; the first failure is
      reported. */
  function Created(id: Id, data: seq<UserEntry>, passwordHash: string): Result<UserRec> {
    var a := AssignedAll(Unset(id, passwordHash), data, true);
    if a.failure.Some? then Err(a.failure.value) else Ok(a.value)
  }

  /** A user is built exactly when every key is accepted; otherwise the
      error is that of the first rejected key in dictionary order. A built
      user has the hash, the id unless a key reassigns it, and the last
      value of each key. */
  lemma CreatedOutcome(id: Id, data: seq<UserEntry>, passwordHash: string)
    ensures var r := Created(id, data, passwordHash);
            var k := FirstRejected(data, true);
            (r.Ok? <==> forall i :: 0 <= i < |data| ==> Acceptable(data[i], true))
            && (r.Err? ==> k < |data| && r.error == Fault(data[k], true))
            && (r.Ok? ==> r.value.passwordHash == passwordHash && (KeepsId(data) ==> r.value.id == id)
                          && (SuppliedEmail(data).Some? ==> r.value.email == SuppliedEmail(data).value))
  {
    AssignedAllOutcome(Unset(id, passwordHash), data, true);
    AssignedAllStopsAtFirstRejected(Unset(id, passwordHash), data, true);
    AssignedAllStoresSuppliedEmail(Unset(id, passwordHash), data, true);
  }

  /** A registration payload: accepted without the `password` key, and
      refused on it when the key reaches the constructor. */
  lemma RegistrationExample(id: Id, passwordHash: string)
    ensures var base := [SetFirstName("A"), SetLastName("B"), SetEmail("a@b.c")];
            Created(id, base, passwordHash).Ok? && SuppliedEmail(base) == Some("a@b.c")
            && Created(id, base + [Unknown("password")], passwordHash) == Err(UnexpectedKeyword("password"))
            && SuppliedEmail(base + [Unknown("password")]) == Some("a@b.c")
  {
    var e, p := SetEmail("a@b.c"), Unknown("password");
    var base := [SetFirstName("A"), SetLastName("B"), e];
    var payload := base + [p];
    MatchesEmailIff("a@b.c");
    assert ShapeAt("a@b.c", 1, 3);
    assert ValidateEmail("a@b.c") == Ok("a@b.c");
    var u0 := Unset(id, passwordHash);
    var u1 := u0.(firstName := "A");
    var u2 := u1.(lastName := "B");
    var u3 := u2.(email := "a@b.c");
    assert base[1..] == [SetLastName("B"), e] && base[1..][1..] == [e] && [e][1..] == [];
    assert payload[1..] == [SetLastName("B"), e, p] && payload[1..][1..] == [e, p] && [e, p][1..] == [p];
    assert [p][1..] == [];
    assert SuppliedEmail([p]) == None;
    assert SuppliedEmail([e, p]) == Some("a@b.c");
    assert SuppliedEmail([SetLastName("B"), e, p]) == Some("a@b.c");
    assert SuppliedEmail([e]) == Some("a@b.c");
    assert SuppliedEmail([SetLastName("B"), e]) == Some("a@b.c");
    assert AssignedAll(u3, [], true) == Patched(u3, None);
    assert AssignedAll(u2, [e], true) == Patched(u3, None);
    assert AssignedAll(u1, [SetLastName("B"), e], true) == Patched(u3, None);
    assert AssignedAll(u0, base, true) == Patched(u3, None);
    assert AssignedAll(u3, [p], true) == Patched(u3, Some(UnexpectedKeyword("password")));
    assert AssignedAll(u2, [e, p], true) == Patched(u3, Some(UnexpectedKeyword("password")));
    assert AssignedAll(u1, [SetLastName("B"), e, p], true) == Patched(u3, Some(UnexpectedKeyword("password")));
    assert AssignedAll(u0, payload, true) == Patched(u3, Some(UnexpectedKeyword("password")));
  }

  /** The dictionary's order decides which error is reported: the same two
      bad values in the other order give the other error, and a key the
      class does not declare raises once it is reached. */
  lemma CreatedReportsPayloadOrder(id: Id, passwordHash: string)
    ensures Created(id, [SetEmail("x"), SetFirstName("")], passwordHash) == Err(BadEmailFormat)
    ensures Created(id, [SetFirstName(""), SetEmail("x")], passwordHash) == Err(Required(FirstName))
    ensures Created(id, [SetFirstName("A"), Unknown("password")], passwordHash) == Err(UnexpectedKeyword("password"))
  {
    assert !MatchesEmail("x");
  }
}
