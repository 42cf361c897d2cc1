/**
  server/models/User.js and server/models/User.ts: the user store. The
  JavaScript draft hashes the password, starts users unverified, never
  returns the password column and names duplicate emails; the TypeScript
  draft stores the password as given, starts users verified and returns
  whole rows.
*/
module Users {
  import opened Base
  import opened Js
  import opened Sql
  import opened Store
  import opened Crypto
  import opened Errors
  import Ships
  import Matches

  // ---------------------------------------------------------------------
  // What leaves the store

  /** A user record without its `password` column. The JavaScript queries
      select `id, name, email, type, company, verified, created_at`
      (`updatedAt` is `None`); stripping the password from a whole row
      keeps `updated_at`. */
  datatype PublicUser = PublicUser(
    id: nat,
    name: string,
    email: string,
    kind: UserType,
    company: Option<string>,
    verified: bool,
    createdAt: nat,
    updatedAt: Option<nat>)

  /** The column list of the JavaScript `RETURNING`/`SELECT`. */
  function Projected(u: UserRow): PublicUser
  {
    PublicUser(u.id, u.name, u.email, u.kind, u.company, u.verified, u.createdAt, None)
  }

  /** `const { password, ...rest } = user`. */
  function Stripped(u: UserRow): PublicUser
  {
    PublicUser(u.id, u.name, u.email, u.kind, u.company, u.verified, u.createdAt, Some(u.updatedAt))
  }

  /** Stripping removes the password and nothing else: two rows strip alike
      exactly when they differ at most in the password. */
  lemma StrippedForgetsOnlyPassword(u: UserRow, v: UserRow)
    ensures Stripped(u) == Stripped(v) <==> u.(password := v.password) == v
  {
  }

  /** The projection is the stripped row less `updated_at`. */
  lemma ProjectedIsStripped(u: UserRow)
    ensures Projected(u) == Stripped(u).(updatedAt := None)
    ensures Projected(u).id == u.id && Projected(u).email == u.email
  {
  }

  /** The user a request carries after the token gate: a whole row (the
      TypeScript lookup is `SELECT *`) or a projected one. */
  datatype Account = Whole(row: UserRow) | Public(user: PublicUser)
  {
    function Id(): nat
    {
      match this
      case Whole(r) => r.id
      case Public(u) => u.id
    }

    function Kind(): UserType
    {
      match this
      case Whole(r) => r.kind
      case Public(u) => u.kind
    }

    function Name(): string
    {
      match this
      case Whole(r) => r.name
      case Public(u) => u.name
    }

    function Company(): Option<string>
    {
      match this
      case Whole(r) => r.company
      case Public(u) => u.company
    }

    /** The JSON of this record has a `password` property. */
    predicate HasPassword()
    {
      this.Whole?
    }
  }

  // ---------------------------------------------------------------------
  // create

  /** The fields `User.create` destructures from its argument. */
  datatype NewUser = NewUser(name: JsValue, email: JsValue, password: JsValue, kind: JsValue, company: JsValue)

  /** `CHECK (type IN ('charterer', 'shipowner'))`. */
  function CheckedType(name: string): (r: Result<UserType, SqlError>)
    ensures r.Ok? <==> UserTypeOf(name).Some?
    ensures r.Ok? ==> UserTypeName(r.value) == name
    ensures r.Err? ==> r.error == CheckViolation
  {
    match UserTypeOf(name)
    case None => Err(CheckViolation)
    case Some(t) => Ok(t)
  }

  /** The row `INSERT INTO users ... RETURNING` stores, or the error it
      raises: NOT NULL columns in column order, then the type CHECK, then
      the UNIQUE email. `password` is what reaches the column (`None`:
      NULL). */
  function InsertedUser(db: Db, json: JsonCodec, u: NewUser, password: Option<Credential>, verified: bool)
    : (r: Result<UserRow, SqlError>)
    ensures r.Ok? ==> r.value.id == db.next.users && r.value.createdAt == db.clock + 1 && r.value.updatedAt == db.clock + 1
    ensures r.Ok? ==> Some(r.value.password) == password && r.value.verified == verified
    ensures r.Ok? ==> TextParam(json, u.name) == Some(r.value.name) && TextParam(json, u.email) == Some(r.value.email)
    ensures r.Ok? ==> TextParam(json, u.kind) == Some(UserTypeName(r.value.kind)) && TextParam(json, u.company) == r.value.company
    ensures r.Ok? ==> FindUserByEmail(db.users, r.value.email).None?
    ensures r == Err(UniqueViolation) <==>
      && TextParam(json, u.name).Some? && TextParam(json, u.email).Some? && password.Some?
      && TextParam(json, u.kind).Some? && UserTypeOf(TextParam(json, u.kind).value).Some?
      && FindUserByEmail(db.users, TextParam(json, u.email).value).Some?
  {
    var name :- Required(TextParam(json, u.name));
    var email :- Required(TextParam(json, u.email));
    var credential :- Required(password);
    var kindName :- Required(TextParam(json, u.kind));
    var kind :- CheckedType(kindName);
    if FindUserByEmail(db.users, email).Some? then Err(UniqueViolation)
    else Ok(UserRow(db.next.users, name, email, credential, kind, TextParam(json, u.company), verified, db.clock + 1, db.clock + 1))
  }

  /** The store after appending `row` with the next id at the next tick. */
  function WithUser(db: Db, row: UserRow): Db
  {
    db.(users := db.users + [row], next := db.next.(users := db.next.users + 1), clock := db.clock + 1)
  }

  /** `catch (error) { if (error.code === '23505') throw new Error('Email
      already exists'); throw error; }`. */
  function Translated(e: SqlError): (t: Thrown)
    ensures t == EmailAlreadyExists <==> e == UniqueViolation
    ensures t != EmailAlreadyExists ==> t == Database(e)
  {
    UniqueViolationCode(e);
    if Code(e) == "23505" then EmailAlreadyExists else Database(e)
  }

  /** `User.create` (JavaScript): the password is hashed with cost 12
      before the insert, `verified` is false, the result has no password,
      and a duplicate email is reported by name. */
  function CreateJs(db: Db, json: JsonCodec, u: NewUser): (r: Result<(Db, PublicUser), Thrown>)
  {
    match BcryptHash(u.password)
    case Err(e) => Err(Bcrypt(e))
    case Ok(hashed) =>
      if !db.online then Err(StoreDown)
      else
        match InsertedUser(db, json, u, Some(hashed), false)
        case Err(e) => Err(Translated(e))
        case Ok(row) => Ok((WithUser(db, row), Projected(row)))
  }

  /** `User.create` (TypeScript): the password text is stored as it is,
      `verified` is true, the whole row comes back, and errors pass through
      untranslated. */
  function CreateTs(db: Db, json: JsonCodec, u: NewUser): (r: Result<(Db, UserRow), Thrown>)
    ensures r.Err? ==> r.error.Database?
  {
    if !db.online then Err(StoreDown)
    else
      var password := match TextParam(json, u.password) case Some(t) => Some(Cleartext(t)) case None => None;
      var row :- Lift(InsertedUser(db, json, u, password, true));
      Ok((WithUser(db, row), row))
  }

  /** `User.create` (TypeScript) as its routes need it: the password
      hashed as in the JavaScript draft and a duplicate email reported by
      name; the user still starts verified and the whole row comes back. */
  function CreateTsFixed(db: Db, json: JsonCodec, u: NewUser): (r: Result<(Db, UserRow), Thrown>)
  {
    match BcryptHash(u.password)
    case Err(e) => Err(Bcrypt(e))
    case Ok(hashed) =>
      if !db.online then Err(StoreDown)
      else
        match InsertedUser(db, json, u, Some(hashed), true)
        case Err(e) => Err(Translated(e))
        case Ok(row) => Ok((WithUser(db, row), row))
  }

  /** The corrected create differs from the JavaScript one only in
      `verified` and in returning the password column. */
  lemma CreateTsFixedLikeJs(db: Db, json: JsonCodec, u: NewUser)
    ensures CreateTsFixed(db, json, u).Ok? <==> CreateJs(db, json, u).Ok?
    ensures CreateTsFixed(db, json, u).Err? ==> CreateJs(db, json, u) == Err(CreateTsFixed(db, json, u).error)
    ensures CreateTsFixed(db, json, u).Ok? ==>
      var (db1, row) := CreateTsFixed(db, json, u).value;
      var (db2, user) := CreateJs(db, json, u).value;
      && row.verified && row.password == BcryptHash(u.password).value
      && db1 == db2.(users := db.users + [row]) && db2.users == db.users + [row.(verified := false)]
      && user == Projected(row).(verified := false)
  {
  }

  /** The JavaScript create stores a bcrypt digest of the password, never
      the plaintext, starts the user unverified, and returns the new row
      without its password. */
  lemma CreateJsStoresDigest(db: Db, json: JsonCodec, u: NewUser)
    requires CreateJs(db, json, u).Ok?
    ensures u.password.Str?
    ensures var (db', user) := CreateJs(db, json, u).value;
      && |db'.users| == |db.users| + 1
      && var row := db'.users[|db.users|];
         && db' == WithUser(db, row)
         && row.password == BcryptHash(u.password).value && row.password.Hashed?
         && row.password != Cleartext(u.password.s)
         && BcryptCompare(u.password, row.password) == Ok(true)
         && !row.verified && !user.verified
         && user == Projected(row) && user.id == db.next.users
  {
    HashThenCompare(u.password.s, u.password.s);
  }

  /** The JavaScript create names a duplicate email exactly when the email
      is taken (once the other columns are acceptable), and every other
      failure is the database's own error, rethrown. */
  lemma CreateJsDuplicate(db: Db, json: JsonCodec, u: NewUser)
    ensures CreateJs(db, json, u) == Err(EmailAlreadyExists) <==>
      && u.password.Str? && db.online
      && TextParam(json, u.name).Some? && TextParam(json, u.email).Some?
      && TextParam(json, u.kind).Some? && UserTypeOf(TextParam(json, u.kind).value).Some?
      && FindUserByEmail(db.users, TextParam(json, u.email).value).Some?
    ensures CreateJs(db, json, u).Err? && CreateJs(db, json, u).error != EmailAlreadyExists ==>
      var e := CreateJs(db, json, u).error;
      e.Bcrypt? || e == StoreDown || (e.Database? && e.error != UniqueViolation)
  {
  }

  /** The TypeScript create stores the password text as given, starts the
      user verified, and returns the whole row, password included; a
      duplicate email comes back as the raw unique violation. */
  lemma CreateTsStoresCleartext(db: Db, json: JsonCodec, u: NewUser, password: string)
    requires u.password == Str(password)
    ensures CreateTs(db, json, u).Ok? ==>
      var (db', row) := CreateTs(db, json, u).value;
      && db' == WithUser(db, row) && row.id == db.next.users
      && row.password == Cleartext(password) && row.verified
    ensures db.online && TextParam(json, u.name).Some? && TextParam(json, u.email).Some?
        && TextParam(json, u.kind).Some? && UserTypeOf(TextParam(json, u.kind).value).Some?
        && FindUserByEmail(db.users, TextParam(json, u.email).value).Some?
        ==> CreateTs(db, json, u) == Err(Database(UniqueViolation))
  {
  }

  /** Both creates keep the store valid; in particular emails stay unique. */
  lemma InsertUserValid(db: Db, row: UserRow)
    requires Valid(db)
    requires row.id == db.next.users && row.createdAt == db.clock + 1 && row.updatedAt == db.clock + 1
    requires FindUserByEmail(db.users, row.email).None?
    ensures Valid(WithUser(db, row))
  {
    var db' := WithUser(db, row);
    assert db'.users[|db.users|] == row;
    forall i | 0 <= i < |db'.ships| && db'.ships[i].ownerId.Some?
      ensures FindUser(db'.users, db'.ships[i].ownerId.value).Some?
    {
      FindUserAppended(db.users, row, db'.ships[i].ownerId.value);
    }
    forall i | 0 <= i < |db'.matches|
      ensures FindUser(db'.users, db'.matches[i].userId).Some?
    {
      FindUserAppended(db.users, row, db'.matches[i].userId);
    }
  }

  /** Appending a user keeps every earlier user findable. */
  lemma {:induction false} FindUserAppended(users: seq<UserRow>, row: UserRow, id: int)
    requires FindUser(users, id).Some?
    ensures FindUser(users + [row], id) == FindUser(users, id)
  {
    if users[0].id != id {
      assert (users + [row])[1..] == users[1..] + [row];
      FindUserAppended(users[1..], row, id);
    }
  }

  lemma CreateJsValid(db: Db, json: JsonCodec, u: NewUser)
    requires Valid(db)
    requires CreateJs(db, json, u).Ok?
    ensures Valid(CreateJs(db, json, u).value.0)
  {
    var hashed := BcryptHash(u.password).value;
    InsertUserValid(db, InsertedUser(db, json, u, Some(hashed), false).value);
  }

  lemma CreateTsValid(db: Db, json: JsonCodec, u: NewUser)
    requires Valid(db)
    requires CreateTs(db, json, u).Ok?
    ensures Valid(CreateTs(db, json, u).value.0)
  {
    InsertUserValid(db, CreateTs(db, json, u).value.1);
  }

  // ---------------------------------------------------------------------
  // Lookups

  /** `User.findById` (JavaScript): the projected row, if any. */
  function FindByIdJs(db: Db, id: JsValue): (r: Result<Option<PublicUser>, Thrown>)
    ensures r.Ok? <==> db.online && IntegerParam(id).Ok?
    ensures r.Ok? && r.value.Some? ==> IntegerParam(id) == Ok(Some(r.value.value.id))
    ensures r.Ok? && r.value.Some? ==> exists row :: row in db.users && r.value.value == Projected(row)
    ensures r.Ok? && r.value.None? ==> forall i :: 0 <= i < |db.users| ==> IntegerParam(id) != Ok(Some(db.users[i].id))
  {
    match FindByIdTs(db, id)
    case Err(e) => Err(e)
    case Ok(None) => Ok(None)
    case Ok(Some(row)) => Ok(Some(Projected(row)))
  }

  /** `User.findById` (TypeScript): `rows[0] || null`, the whole row. */
  function FindByIdTs(db: Db, id: JsValue): (r: Result<Option<UserRow>, Thrown>)
    ensures r.Ok? <==> db.online && IntegerParam(id).Ok?
    ensures r.Ok? && r.value.Some? ==> r.value.value in db.users && IntegerParam(id) == Ok(Some(r.value.value.id))
    ensures r.Ok? && r.value.None? ==> forall i :: 0 <= i < |db.users| ==> IntegerParam(id) != Ok(Some(db.users[i].id))
  {
    if !db.online then Err(StoreDown)
    else
      var key :- Lift(IntegerParam(id));
      if key.None? then Ok(None) else Ok(FindUser(db.users, key.value))
  }

  /** `User.findByEmail`, both drafts: the whole row, if any. */
  function FindByEmail(db: Db, email: string): (r: Result<Option<UserRow>, Thrown>)
    ensures r.Ok? <==> db.online
    ensures r.Ok? && r.value.Some? ==> r.value.value in db.users && r.value.value.email == email
    ensures r.Ok? && r.value.None? ==> forall i :: 0 <= i < |db.users| ==> db.users[i].email != email
  {
    if !db.online then Err(StoreDown) else Ok(FindUserByEmail(db.users, email))
  }

  /** Both `findById` drafts find the same user; the JavaScript one hides
      the password. */
  lemma FindByIdDraftsAgree(db: Db, id: JsValue)
    ensures FindByIdJs(db, id).Ok? <==> FindByIdTs(db, id).Ok?
    ensures FindByIdTs(db, id).Ok? && FindByIdTs(db, id).value.Some? ==>
      FindByIdJs(db, id) == Ok(Some(Projected(FindByIdTs(db, id).value.value)))
    ensures FindByIdTs(db, id) == Ok(None) ==> FindByIdJs(db, id) == Ok(None)
  {
  }

  /** A user just created is found by its id and by its email. */
  lemma CreateThenFind(db: Db, json: JsonCodec, u: NewUser)
    requires UsersValid(db)
    requires CreateTs(db, json, u).Ok?
    ensures var (db', row) := CreateTs(db, json, u).value;
      && InInt4(row.id) ==> FindByIdTs(db', Number(Finite(row.id))) == Ok(Some(row))
    ensures var (db', row) := CreateTs(db, json, u).value;
      FindByEmail(db', row.email) == Ok(Some(row))
  {
    var (db', row) := CreateTs(db, json, u).value;
    FindUserByEmailAppended(db.users, row);
    if InInt4(row.id) {
      assert row.id == db.next.users;
      FindUserLast(db.users, row);
    }
  }

  /** An appended user whose email is new is the one found by it. */
  lemma {:induction false} FindUserByEmailAppended(users: seq<UserRow>, row: UserRow)
    requires FindUserByEmail(users, row.email).None?
    ensures FindUserByEmail(users + [row], row.email) == Some(row)
  {
    if users == [] {
      assert users + [row] == [row];
    } else {
      assert (users + [row])[1..] == users[1..] + [row];
      FindUserByEmailAppended(users[1..], row);
    }
  }

  /** An appended user whose id is new is the one found by it. */
  lemma {:induction false} FindUserLast(users: seq<UserRow>, row: UserRow)
    requires forall i :: 0 <= i < |users| ==> users[i].id != row.id
    ensures FindUser(users + [row], row.id) == Some(row)
  {
    if users == [] {
      assert users + [row] == [row];
    } else {
      assert (users + [row])[1..] == users[1..] + [row];
      FindUserLast(users[1..], row);
    }
  }

  // ---------------------------------------------------------------------
  // updateProfile

  /** Sets name, company and `updated_at` of the user with that id. */
  function SetProfile(users: seq<UserRow>, id: int, name: string, company: Option<string>, stamp: nat): (r: seq<UserRow>)
    ensures |r| == |users|
    ensures forall i :: 0 <= i < |users| && users[i].id != id ==> r[i] == users[i]
    ensures forall i :: 0 <= i < |users| && users[i].id == id ==>
      r[i] == users[i].(name := name, company := company, updatedAt := stamp)
  {
    seq(|users|, i requires 0 <= i < |users| =>
      if users[i].id == id then users[i].(name := name, company := company, updatedAt := stamp) else users[i])
  }

  /** `User.updateProfile` (JavaScript): `UPDATE users SET name, company,
      updated_at WHERE id = $3 RETURNING <projection>`; no row, no change. */
  function UpdateProfile(db: Db, json: JsonCodec, id: int, name: JsValue, company: JsValue)
    : Result<(Db, Option<PublicUser>), Thrown>
  {
    if !db.online then Err(StoreDown)
    else
      var key :- Lift(NumberParam(id));
      match FindUser(db.users, key)
      case None => Ok((db, None))
      case Some(found) =>
        var newName :- Lift(Required(TextParam(json, name)));
        var newCompany := TextParam(json, company);
        var stamp := db.clock + 1;
        var db' := db.(users := SetProfile(db.users, key, newName, newCompany, stamp), clock := stamp);
        Ok((db', Some(Projected(found.(name := newName, company := newCompany, updatedAt := stamp)))))
  }

  /** An update changes name, company and `updated_at` of that user only:
      every other column and every other row, table and counter is kept. */
  lemma UpdateProfileChangesOnly(db: Db, json: JsonCodec, id: int, name: JsValue, company: JsValue)
    requires UpdateProfile(db, json, id, name, company).Ok?
    ensures var (db', _) := UpdateProfile(db, json, id, name, company).value;
      && db'.ships == db.ships && db'.matches == db.matches && db'.next == db.next
      && |db'.users| == |db.users|
      && forall i :: 0 <= i < |db.users| ==>
           if db.users[i].id == id then
             && db'.users[i].(name := db.users[i].name, company := db.users[i].company, updatedAt := db.users[i].updatedAt) == db.users[i]
             && Some(db'.users[i].name) == TextParam(json, name) && db'.users[i].company == TextParam(json, company)
           else db'.users[i] == db.users[i]
  {
  }

  /** An update of an absent user returns nothing and changes nothing;
      an update of a present one returns it with the new name and company. */
  lemma UpdateProfileResult(db: Db, json: JsonCodec, id: int, name: JsValue, company: JsValue)
    requires db.online && InInt4(id)
    ensures FindUser(db.users, id).None? ==> UpdateProfile(db, json, id, name, company) == Ok((db, None))
    ensures FindUser(db.users, id).Some? && name.Str? ==>
      && UpdateProfile(db, json, id, name, company).Ok?
      && var user := UpdateProfile(db, json, id, name, company).value.1;
         user.Some? && user.value.id == id && user.value.name == name.s
         && user.value.company == TextParam(json, company)
         && user.value.email == FindUser(db.users, id).value.email
  {
  }

  lemma UpdateProfileValid(db: Db, json: JsonCodec, id: int, name: JsValue, company: JsValue)
    requires Valid(db)
    requires UpdateProfile(db, json, id, name, company).Ok?
    ensures Valid(UpdateProfile(db, json, id, name, company).value.0)
  {
    var db' := UpdateProfile(db, json, id, name, company).value.0;
    UpdateProfileChangesOnly(db, json, id, name, company);
    SameKeysValid(db, db');
  }

  /** A users table changed only outside ids and emails, with a later
      clock, keeps the store valid. */
  lemma SameKeysValid(db: Db, db': Db)
    requires Valid(db)
    requires db'.ships == db.ships && db'.matches == db.matches && db'.next == db.next && db'.cargoIds == db.cargoIds
    requires db'.clock >= db.clock
    requires |db'.users| == |db.users|
    requires forall i :: 0 <= i < |db.users| ==>
      db'.users[i].id == db.users[i].id && db'.users[i].email == db.users[i].email
      && db'.users[i].createdAt == db.users[i].createdAt && db'.users[i].updatedAt <= db'.clock
    ensures Valid(db')
  {
    assert UsersValid(db') by {
      forall i, j | 0 <= i < j < |db'.users|
        ensures db'.users[i].id != db'.users[j].id && db'.users[i].email != db'.users[j].email
      {
        assert db.users[i].id != db.users[j].id && db.users[i].email != db.users[j].email;
      }
    }
    forall k | 0 <= k < |db'.ships| && db'.ships[k].ownerId.Some?
      ensures FindUser(db'.users, db'.ships[k].ownerId.value).Some?
    {
      SameIdsFind(db.users, db'.users, db.ships[k].ownerId.value);
    }
    forall k | 0 <= k < |db'.matches|
      ensures FindUser(db'.users, db'.matches[k].userId).Some?
    {
      SameIdsFind(db.users, db'.users, db.matches[k].userId);
    }
  }

  /** Two tables with the same ids, row by row, find the same ids. */
  lemma {:induction false} SameIdsFind(a: seq<UserRow>, b: seq<UserRow>, id: int)
    requires |a| == |b| && forall i :: 0 <= i < |a| ==> a[i].id == b[i].id
    requires FindUser(a, id).Some?
    ensures FindUser(b, id).Some?
  {
    if a[0].id != id {
      SameIdsFind(a[1..], b[1..], id);
    }
  }

  // ---------------------------------------------------------------------
  // getDashboard

  /** `{ ships, matches }`. */
  datatype Dashboard = Dashboard(ships: Num, matches: Num)

  /** `parseInt(rows[0].count, 10)`: `COUNT(*)` arrives as decimal text. */
  function CountValue(count: nat): (n: Num)
    ensures n == Finite(count)
  {
    ParseIntDecimal(count);
    ParseInt(IntToDecimal(count))
  }

  /** `User.getDashboard`, both drafts: the number of ships the user owns
      and of matches the user holds; any failure becomes "Failed to fetch
      dashboard data". */
  function GetDashboard(db: Db, userId: int): (r: Result<Dashboard, Thrown>)
    ensures r.Err? ==> r.error == DashboardFailed
  {
    if !db.online then Err(DashboardFailed)
    else
      match NumberParam(userId)
      case Err(_) => Err(DashboardFailed)
      case Ok(u) =>
        Ok(Dashboard(CountValue(|Ships.OwnedRows(db.ships, u)|), CountValue(|Matches.HeldRows(db.matches, u)|)))
  }

  /** The two counts are the sizes of the owner's ship listing and of the
      user's match listing; they fail together. */
  lemma DashboardCounts(db: Db, userId: int)
    ensures GetDashboard(db, userId).Ok? <==> db.online && InInt4(userId)
    ensures GetDashboard(db, userId).Ok? ==>
      && Ships.FindByOwnerIdTs(db, userId).Ok? && Matches.FindByUserIdTs(db, userId).Ok?
      && GetDashboard(db, userId).value.ships == Finite(|Ships.FindByOwnerIdTs(db, userId).value|)
      && GetDashboard(db, userId).value.matches == Finite(|Matches.FindByUserIdTs(db, userId).value|)
  {
    assert NumberParam(userId) == RequiredInteger(Number(Finite(userId)));
  }
}
