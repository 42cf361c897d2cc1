/**
  The relational store, abstracted: each table is a sequence of rows in
  insertion order. The column constraints of the schema (the `type` and
  `status` enumerations, UNIQUE email, UNIQUE (ship_id, user_id), the
  foreign keys) are datatypes and the invariant `Valid`. `NOW()` is an
  abstract clock that every write advances; each table's `SERIAL` ids
  come from its own sequence. `online` is false when the database cannot
  be reached, in which case every statement fails.
*/
module Store {
  import opened Base
  import opened Js
  import opened Crypto

  // ---------------------------------------------------------------------
  // Enumerations and their text forms

  /** `users.type`. */
  datatype UserType = Charterer | Shipowner

  function UserTypeName(t: UserType): string
  {
    match t
    case Charterer => "charterer"
    case Shipowner => "shipowner"
  }

  /** Reads a `users.type` value; the CHECK constraint admits nothing else. */
  function UserTypeOf(s: string): (r: Option<UserType>)
    ensures r.Some? ==> UserTypeName(r.value) == s
    ensures r.None? ==> forall t :: UserTypeName(t) != s
  {
    if s == "charterer" then Some(Charterer)
    else if s == "shipowner" then Some(Shipowner)
    else None
  }

  /** `ships.type`. */
  datatype ShipKind = BulkCarrier | Container | Tanker | GeneralCargo

  function ShipKindName(k: ShipKind): string
  {
    match k
    case BulkCarrier => "bulk_carrier"
    case Container => "container"
    case Tanker => "tanker"
    case GeneralCargo => "general_cargo"
  }

  function ShipKindOf(s: string): (r: Option<ShipKind>)
    ensures r.Some? ==> ShipKindName(r.value) == s
    ensures r.None? ==> forall k :: ShipKindName(k) != s
  {
    if s == "bulk_carrier" then Some(BulkCarrier)
    else if s == "container" then Some(Container)
    else if s == "tanker" then Some(Tanker)
    else if s == "general_cargo" then Some(GeneralCargo)
    else None
  }

  /** `matches.status`. */
  datatype MatchStatus = Pending | Accepted | Negotiating | Confirmed

  function StatusName(st: MatchStatus): string
  {
    match st
    case Pending => "pending"
    case Accepted => "accepted"
    case Negotiating => "negotiating"
    case Confirmed => "confirmed"
  }

  function StatusOf(s: string): (r: Option<MatchStatus>)
    ensures r.Some? ==> StatusName(r.value) == s
    ensures r.None? ==> forall st :: StatusName(st) != s
  {
    if s == "pending" then Some(Pending)
    else if s == "accepted" then Some(Accepted)
    else if s == "negotiating" then Some(Negotiating)
    else if s == "confirmed" then Some(Confirmed)
    else None
  }

  // ---------------------------------------------------------------------
  // Rows

  /** A `users` row. `company` is nullable. */
  datatype UserRow = UserRow(
    id: nat,
    name: string,
    email: string,
    password: Credential,
    kind: UserType,
    company: Option<string>,
    verified: bool,
    createdAt: nat,
    updatedAt: nat)

  /** A `ships` row. `images` and `specifications` are JSONB and are held
      as the driver returns them (already parsed); `lat`, `lng` and
      `next_available_date` are kept as their text. */
  datatype ShipRow = ShipRow(
    id: nat,
    name: string,
    kind: ShipKind,
    dwt: int,
    currentPort: string,
    nextAvailableDate: string,
    lat: string,
    lng: string,
    owner: string,
    images: JsValue,
    specifications: JsValue,
    ratePerDay: Option<int>,
    ownerId: Option<int>,
    createdAt: nat,
    updatedAt: nat)

  /** A `matches` row, with the timestamps of both schema drafts. */
  datatype MatchRow = MatchRow(
    id: nat,
    shipId: Option<int>,
    userId: int,
    cargoId: Option<int>,
    status: MatchStatus,
    matchedAt: nat,
    createdAt: nat,
    updatedAt: nat)

  /** The next value of each table's `SERIAL` id sequence. */
  datatype Serials = Serials(users: nat, ships: nat, matches: nat)

  /** The whole store. `cargoIds` are the ids of the `cargos` rows (the
      cargo entity has no behaviour of its own here). `matchStatusDefault`
      is the column default of `matches.status`: `'pending'` in one schema
      draft, none (NOT NULL without default) in the other. */
  datatype Db = Db(
    users: seq<UserRow>,
    ships: seq<ShipRow>,
    matches: seq<MatchRow>,
    cargoIds: set<int>,
    next: Serials,
    clock: nat,
    online: bool,
    matchStatusDefault: Option<MatchStatus>)

  // ---------------------------------------------------------------------
  // Lookups by key

  function FindUser(users: seq<UserRow>, id: int): (r: Option<UserRow>)
    ensures r.Some? ==> r.value in users && r.value.id == id
    ensures r.None? ==> forall i :: 0 <= i < |users| ==> users[i].id != id
  {
    if users == [] then None
    else if users[0].id == id then Some(users[0])
    else FindUser(users[1..], id)
  }

  function FindUserByEmail(users: seq<UserRow>, email: string): (r: Option<UserRow>)
    ensures r.Some? ==> r.value in users && r.value.email == email
    ensures r.None? ==> forall i :: 0 <= i < |users| ==> users[i].email != email
  {
    if users == [] then None
    else if users[0].email == email then Some(users[0])
    else FindUserByEmail(users[1..], email)
  }

  function FindShip(ships: seq<ShipRow>, id: int): (r: Option<ShipRow>)
    ensures r.Some? ==> r.value in ships && r.value.id == id
    ensures r.None? ==> forall i :: 0 <= i < |ships| ==> ships[i].id != id
  {
    if ships == [] then None
    else if ships[0].id == id then Some(ships[0])
    else FindShip(ships[1..], id)
  }

  /** In a table with distinct ids, a row is the one found by its id. */
  lemma {:induction false} FindUserUnique(users: seq<UserRow>, u: UserRow)
    requires u in users
    requires forall i, j :: 0 <= i < j < |users| ==> users[i].id != users[j].id
    ensures FindUser(users, u.id) == Some(u)
  {
    if users[0] != u {
      assert users[0].id != u.id by {
        var k :| 0 <= k < |users| && users[k] == u;
        assert 0 < k;
      }
      assert u in users[1..];
      FindUserUnique(users[1..], u);
    }
  }

  /** Two rows that the UNIQUE (ship_id, user_id) constraint forbids: a
      NULL ship id is distinct from every other. */
  predicate SamePair(a: MatchRow, b: MatchRow)
  {
    a.shipId.Some? && a.shipId == b.shipId && a.userId == b.userId
  }

  // ---------------------------------------------------------------------
  // The invariant

  ghost predicate UsersValid(db: Db)
  {
    && (forall i, j :: 0 <= i < j < |db.users| ==>
          db.users[i].id != db.users[j].id && db.users[i].email != db.users[j].email)
    && (forall i :: 0 <= i < |db.users| ==>
          db.users[i].id < db.next.users && db.users[i].createdAt <= db.clock && db.users[i].updatedAt <= db.clock)
  }

  ghost predicate ShipsValid(db: Db)
  {
    && (forall i, j :: 0 <= i < j < |db.ships| ==> db.ships[i].id != db.ships[j].id)
    && (forall i :: 0 <= i < |db.ships| ==>
          db.ships[i].id < db.next.ships && db.ships[i].createdAt <= db.clock && db.ships[i].updatedAt <= db.clock)
    && (forall i :: 0 <= i < |db.ships| && db.ships[i].ownerId.Some? ==>
          FindUser(db.users, db.ships[i].ownerId.value).Some?)
  }

  ghost predicate MatchesValid(db: Db)
  {
    && (forall i, j :: 0 <= i < j < |db.matches| ==>
          db.matches[i].id != db.matches[j].id && !SamePair(db.matches[i], db.matches[j]))
    && (forall i :: 0 <= i < |db.matches| ==>
          db.matches[i].id < db.next.matches
          && db.matches[i].matchedAt <= db.clock
          && db.matches[i].createdAt <= db.clock
          && db.matches[i].updatedAt <= db.clock)
    && (forall i :: 0 <= i < |db.matches| ==>
          && FindUser(db.users, db.matches[i].userId).Some?
          && (db.matches[i].shipId.Some? ==> FindShip(db.ships, db.matches[i].shipId.value).Some?)
          && (db.matches[i].cargoId.Some? ==> db.matches[i].cargoId.value in db.cargoIds))
  }

  /** Keys are unique, the UNIQUE constraints hold, every foreign key
      refers to an existing row, ids come from the counter and timestamps
      from the clock. */
  ghost predicate Valid(db: Db)
  {
    UsersValid(db) && ShipsValid(db) && MatchesValid(db)
  }

  /** At most one row per (ship, user) pair, as a count. */
  lemma AtMostOneRowPerPair(db: Db, shipId: int, userId: int)
    requires MatchesValid(db)
    ensures |Filter(db.matches, (m: MatchRow) => m.shipId == Some(shipId) && m.userId == userId)| <= 1
  {
    var p := (m: MatchRow) => m.shipId == Some(shipId) && m.userId == userId;
    var f := Filter(db.matches, p);
    if |f| > 1 {
      assert f[0] != f[1] by {
        FilterDistinct(db.matches, p);
      }
      assert SamePair(f[0], f[1]);
      DistinctStoredPairs(db, f[0], f[1]);
    }
  }

  /** Filtering a sequence of distinct rows keeps them distinct. */
  lemma {:induction false} FilterDistinct<T>(s: seq<T>, p: T -> bool)
    requires forall i, j :: 0 <= i < j < |s| ==> s[i] != s[j]
    ensures forall i, j :: 0 <= i < j < |Filter(s, p)| ==> Filter(s, p)[i] != Filter(s, p)[j]
  {
    if s != [] {
      FilterDistinct(s[1..], p);
      assert s[0] !in s[1..];
    }
  }

  lemma DistinctStoredPairs(db: Db, a: MatchRow, b: MatchRow)
    requires MatchesValid(db)
    requires a in db.matches && b in db.matches && a != b
    ensures !SamePair(a, b)
  {
    var i :| 0 <= i < |db.matches| && db.matches[i] == a;
    var j :| 0 <= j < |db.matches| && db.matches[j] == b;
    assert i != j;
    if i < j {
      assert !SamePair(db.matches[i], db.matches[j]);
    } else {
      assert !SamePair(db.matches[j], db.matches[i]);
    }
  }
}
