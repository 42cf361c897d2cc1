/**
  server/models/Match.js and server/models/Match.ts: the match registry.
  A match records that a user swiped right on a ship; there is at most one
  per (ship, user) pair.
*/
module Matches {
  import opened Base
  import opened Js
  import opened Sql
  import opened Store
  import opened Sorting
  import opened Errors
  import Ships

  // ---------------------------------------------------------------------
  // create

  /** `SELECT ... FROM matches WHERE ship_id = $1 AND user_id = $2`. A NULL
      ship id equals nothing. */
  function PairRows(matches: seq<MatchRow>, ship: Option<int>, user: int): seq<MatchRow>
  {
    Filter(matches, (m: MatchRow) => ship.Some? && m.shipId == ship && m.userId == user)
  }

  /** The row `INSERT INTO matches ... RETURNING *` stores, or the error it
      raises: the cargo parameter is converted, the status must not be NULL,
      and the three foreign keys must refer to existing rows. */
  function InsertedMatch(db: Db, ship: Option<int>, user: int, cargo: JsValue, status: Option<MatchStatus>)
    : (r: Result<MatchRow, SqlError>)
    ensures r.Ok? ==> r.value.id == db.next.matches && r.value.shipId == ship && r.value.userId == user
    ensures r.Ok? ==> Some(r.value.status) == status && IntegerParam(cargo) == Ok(r.value.cargoId)
    ensures r.Ok? ==> r.value.matchedAt == db.clock + 1 && r.value.createdAt == db.clock + 1 && r.value.updatedAt == db.clock + 1
    ensures r.Ok? ==> FindUser(db.users, user).Some?
    ensures r.Ok? && ship.Some? ==> FindShip(db.ships, ship.value).Some?
    ensures r.Ok? && r.value.cargoId.Some? ==> r.value.cargoId.value in db.cargoIds
    ensures status.None? ==> r.Err?
  {
    var cargoId :- IntegerParam(cargo);
    var st :- Required(status);
    if ship.Some? && FindShip(db.ships, ship.value).None? then Err(ForeignKeyViolation)
    else if FindUser(db.users, user).None? then Err(ForeignKeyViolation)
    else if cargoId.Some? && cargoId.value !in db.cargoIds then Err(ForeignKeyViolation)
    else Ok(MatchRow(db.next.matches, ship, user, cargoId, st, db.clock + 1, db.clock + 1, db.clock + 1))
  }

  /** The store after appending `row` with the next id at the next tick. */
  function WithMatch(db: Db, row: MatchRow): Db
  {
    db.(matches := db.matches + [row], next := db.next.(matches := db.next.matches + 1), clock := db.clock + 1)
  }

  /** The duplicate check followed by the insert, with the status the
      insert writes (`None`: the column is left to a default that does not
      exist). */
  function CreateWith(db: Db, shipId: JsValue, userId: int, cargoId: JsValue, status: Option<MatchStatus>)
    : (r: Result<(Db, MatchRow), Thrown>)
  {
    if !db.online then Err(StoreDown)
    else
      var ship :- Lift(IntegerParam(shipId));
      var user :- Lift(NumberParam(userId));
      CheckThenInsert(db, ship, user, cargoId, status)
  }

  /** The two statements of a create once the ids are bound. */
  function CheckThenInsert(db: Db, ship: Option<int>, user: int, cargoId: JsValue, status: Option<MatchStatus>)
    : (r: Result<(Db, MatchRow), Thrown>)
  {
    if |PairRows(db.matches, ship, user)| > 0 then Err(MatchAlreadyExists)
    else
      var row :- Lift(InsertedMatch(db, ship, user, cargoId, status));
      Ok((WithMatch(db, row), row))
  }

  /** `{ cargoId = null }`: the default applies only to `undefined`. */
  function CargoDefault(cargoId: JsValue): JsValue
  {
    if cargoId.Undefined? then Null else cargoId
  }

  /** `Match.create` (JavaScript): the status is written as `'pending'`. */
  function CreateJs(db: Db, shipId: JsValue, userId: int, cargoId: JsValue): Result<(Db, MatchRow), Thrown>
  {
    CreateWith(db, shipId, userId, CargoDefault(cargoId), Some(Pending))
  }

  /** `Match.create` (TypeScript): the status is not written, so it is the
      column default. */
  function CreateTs(db: Db, shipId: JsValue, userId: int, cargoId: JsValue): Result<(Db, MatchRow), Thrown>
  {
    CreateWith(db, shipId, userId, cargoId, db.matchStatusDefault)
  }

  /** The ship id a create compares and stores. */
  predicate ShipParam(shipId: JsValue, ship: int)
  {
    IntegerParam(shipId) == Ok(Some(ship))
  }

  /** A create fails with "Match already exists" exactly when the pair
      already has a row (given a reachable store and well-formed ids);
      a failed create returns no store, so nothing changes. */
  lemma DuplicateRejected(db: Db, shipId: JsValue, ship: int, userId: int, cargoId: JsValue, status: Option<MatchStatus>)
    requires db.online && ShipParam(shipId, ship) && InInt4(userId)
    ensures CreateWith(db, shipId, userId, cargoId, status) == Err(MatchAlreadyExists)
        <==> exists i :: 0 <= i < |db.matches| && db.matches[i].shipId == Some(ship) && db.matches[i].userId == userId
  {
    assert CreateWith(db, shipId, userId, cargoId, status) == CheckThenInsert(db, Some(ship), userId, cargoId, status);
    PairExists(db.matches, ship, userId);
  }

  /** The duplicate check finds a row exactly when the pair has one. */
  lemma PairExists(matches: seq<MatchRow>, ship: int, user: int)
    ensures |PairRows(matches, Some(ship), user)| > 0
        <==> exists i :: 0 <= i < |matches| && matches[i].shipId == Some(ship) && matches[i].userId == user
  {
    var pairs := PairRows(matches, Some(ship), user);
    if exists i :: 0 <= i < |matches| && matches[i].shipId == Some(ship) && matches[i].userId == user {
      var i :| 0 <= i < |matches| && matches[i].shipId == Some(ship) && matches[i].userId == user;
      assert matches[i] in pairs;
    } else if |pairs| > 0 {
      assert pairs[0] in matches;
    }
  }

  /** A successful create appends exactly one row, for the given pair and
      the caller's user, and changes nothing else. */
  lemma CreateAppendsOne(db: Db, shipId: JsValue, userId: int, cargoId: JsValue, status: Option<MatchStatus>)
    requires CreateWith(db, shipId, userId, cargoId, status).Ok?
    ensures var (db', row) := CreateWith(db, shipId, userId, cargoId, status).value;
      && db' == WithMatch(db, row)
      && db'.matches == db.matches + [row]
      && row.id == db.next.matches && row.userId == userId
      && IntegerParam(shipId) == Ok(row.shipId)
      && Some(row.status) == status
      && (Nullish(cargoId) ==> row.cargoId.None?)
      && |PairRows(db.matches, row.shipId, row.userId)| == 0
      && InsertedMatch(db, row.shipId, row.userId, cargoId, status) == Ok(row)
  {
  }

  predicate Nullish(v: JsValue)
  {
    v.Undefined? || v.Null?
  }

  /** The JavaScript draft stores `pending`. */
  lemma CreateJsPending(db: Db, shipId: JsValue, userId: int, cargoId: JsValue)
    requires CreateJs(db, shipId, userId, cargoId).Ok?
    ensures CreateJs(db, shipId, userId, cargoId).value.1.status == Pending
  {
    CreateAppendsOne(db, shipId, userId, CargoDefault(cargoId), Some(Pending));
  }

  /** The TypeScript draft stores the column default, and so the same row
      as the JavaScript one exactly when that default is `pending`. */
  lemma CreateDraftsAgree(db: Db, shipId: JsValue, userId: int, cargoId: JsValue)
    requires db.matchStatusDefault == Some(Pending)
    ensures CreateTs(db, shipId, userId, cargoId) == CreateJs(db, shipId, userId, cargoId)
  {
    assert IntegerParam(CargoDefault(cargoId)) == IntegerParam(cargoId);
    SameCargoSameCreate(db, shipId, userId, CargoDefault(cargoId), cargoId);
  }

  /** A create sees the cargo id only through its bound value. */
  lemma SameCargoSameCreate(db: Db, shipId: JsValue, userId: int, a: JsValue, b: JsValue)
    requires IntegerParam(a) == IntegerParam(b)
    ensures CreateWith(db, shipId, userId, a, Some(Pending)) == CreateWith(db, shipId, userId, b, Some(Pending))
  {
    if db.online && IntegerParam(shipId).Ok? && InInt4(userId) {
      var ship := IntegerParam(shipId).value;
      SameCargoSameInsert(db, ship, userId, a, b);
      CreateWithBound(db, shipId, userId, a, Some(Pending));
      CreateWithBound(db, shipId, userId, b, Some(Pending));
    }
  }

  /** Once both ids bind, a create is the check and the insert. */
  lemma CreateWithBound(db: Db, shipId: JsValue, userId: int, cargoId: JsValue, status: Option<MatchStatus>)
    requires db.online && IntegerParam(shipId).Ok? && InInt4(userId)
    ensures CreateWith(db, shipId, userId, cargoId, status)
         == CheckThenInsert(db, IntegerParam(shipId).value, userId, cargoId, status)
  {
  }

  lemma SameCargoSameInsert(db: Db, ship: Option<int>, user: int, a: JsValue, b: JsValue)
    requires IntegerParam(a) == IntegerParam(b)
    ensures InsertedMatch(db, ship, user, a, Some(Pending)) == InsertedMatch(db, ship, user, b, Some(Pending))
    ensures CheckThenInsert(db, ship, user, a, Some(Pending)) == CheckThenInsert(db, ship, user, b, Some(Pending))
  {
  }



  /** A store without a status default rejects every TypeScript create. */
  lemma CreateTsNeedsDefault(db: Db, shipId: JsValue, userId: int, cargoId: JsValue)
    requires db.matchStatusDefault.None?
    ensures CreateTs(db, shipId, userId, cargoId).Err?
  {
    if CreateTs(db, shipId, userId, cargoId).Ok? {
      CreateAppendsOne(db, shipId, userId, cargoId, None);
    }
  }

  /** A create keeps the store valid: in particular at most one row per
      (ship, user) pair. */
  lemma CreateValid(db: Db, shipId: JsValue, userId: int, cargoId: JsValue, status: Option<MatchStatus>)
    requires Valid(db)
    requires CreateWith(db, shipId, userId, cargoId, status).Ok?
    ensures Valid(CreateWith(db, shipId, userId, cargoId, status).value.0)
  {
    var (db', row) := CreateWith(db, shipId, userId, cargoId, status).value;
    CreateAppendsOne(db, shipId, userId, cargoId, status);
    InsertValid(db, row, cargoId, status);
  }

  /** Appending the row the insert produces, when the duplicate check found
      nothing, keeps the store valid. */
  lemma InsertValid(db: Db, row: MatchRow, cargoId: JsValue, status: Option<MatchStatus>)
    requires Valid(db)
    requires |PairRows(db.matches, row.shipId, row.userId)| == 0
    requires InsertedMatch(db, row.shipId, row.userId, cargoId, status) == Ok(row)
    ensures Valid(WithMatch(db, row))
  {
    InsertKeepsUsersAndShips(db, row);
    InsertMatchesValid(db, row, cargoId, status);
  }

  lemma InsertKeepsUsersAndShips(db: Db, row: MatchRow)
    requires UsersValid(db) && ShipsValid(db)
    ensures UsersValid(WithMatch(db, row)) && ShipsValid(WithMatch(db, row))
  {
  }

  lemma InsertMatchesValid(db: Db, row: MatchRow, cargoId: JsValue, status: Option<MatchStatus>)
    requires MatchesValid(db)
    requires |PairRows(db.matches, row.shipId, row.userId)| == 0
    requires InsertedMatch(db, row.shipId, row.userId, cargoId, status) == Ok(row)
    ensures MatchesValid(WithMatch(db, row))
  {
    var db' := WithMatch(db, row);
    assert db'.matches[|db.matches|] == row;
    forall i | 0 <= i < |db.matches|
      ensures !SamePair(db.matches[i], row) && !SamePair(row, db.matches[i])
    {
      assert db.matches[i] !in PairRows(db.matches, row.shipId, row.userId);
    }
  }

  // ---------------------------------------------------------------------
  // findByUserId

  /** The ship fields `findByUserId` joins in. */
  datatype ShipSummary = ShipSummary(name: string, owner: string, kind: ShipKind, dwt: int, currentPort: string, images: JsValue)

  /** One element of the JavaScript `findByUserId` result. */
  datatype MatchView = MatchView(
    id: nat,
    shipId: Option<int>,
    cargoId: Option<int>,
    userId: int,
    status: MatchStatus,
    matchedAt: nat,
    ship: ShipSummary)

  /** `JOIN ships s ON m.ship_id = s.id`: the match's ship exists. */
  predicate HasShip(ships: seq<ShipRow>, m: MatchRow)
  {
    m.shipId.Some? && FindShip(ships, m.shipId.value).Some?
  }

  function ShipOf(ships: seq<ShipRow>, m: MatchRow): (s: ShipRow)
    requires HasShip(ships, m)
    ensures s in ships && Some(s.id) == m.shipId
  {
    FindShip(ships, m.shipId.value).value
  }

  /** `... WHERE m.user_id = $1`. */
  predicate Joinable(ships: seq<ShipRow>, user: int, m: MatchRow)
  {
    m.userId == user && HasShip(ships, m)
  }

  function JoinableRows(matches: seq<MatchRow>, ships: seq<ShipRow>, user: int): (r: seq<MatchRow>)
    ensures forall i :: 0 <= i < |r| ==> r[i] in matches && Joinable(ships, user, r[i])
    ensures forall i :: 0 <= i < |matches| && Joinable(ships, user, matches[i]) ==> matches[i] in r
  {
    Filter(matches, (m: MatchRow) => Joinable(ships, user, m))
  }

  /** `ORDER BY m.matched_at DESC`. */
  function ByMatchedAt(ms: seq<MatchRow>): (r: seq<MatchRow>)
    ensures SortedDesc(r, (m: MatchRow) => m.matchedAt)
    ensures multiset(r) == multiset(ms)
    ensures |r| == |ms|
  {
    SortDesc(ms, (m: MatchRow) => m.matchedAt)
  }

  predicate AllHaveShips(ships: seq<ShipRow>, ms: seq<MatchRow>)
  {
    forall i :: 0 <= i < |ms| ==> HasShip(ships, ms[i])
  }

  /** The rows the listing shows, in order: every one has its ship. */
  function Listed(matches: seq<MatchRow>, ships: seq<ShipRow>, user: int): (r: seq<MatchRow>)
    ensures AllHaveShips(ships, r)
    ensures forall i :: 0 <= i < |r| ==> r[i].userId == user && r[i] in matches
    ensures multiset(r) == multiset(JoinableRows(matches, ships, user))
    ensures SortedDesc(r, (m: MatchRow) => m.matchedAt)
  {
    var rows := JoinableRows(matches, ships, user);
    var r := ByMatchedAt(rows);
    forall i | 0 <= i < |r|
      ensures Joinable(ships, user, r[i]) && r[i] in matches
    {
      assert r[i] in multiset(rows);
    }
    r
  }

  /** `JSON.parse(row.images || '[]')`: the driver has already parsed the
      JSONB column, so the value is turned back into a string first. */
  function ParseImagesAsWritten(json: JsonCodec, images: JsValue): Result<JsValue, Thrown>
  {
    match json.parse(ToJsString(Or(images, Str("[]"))))
    case None => Err(JsonSyntax)
    case Some(v) => Ok(v)
  }

  function View(m: MatchRow, s: ShipRow, images: JsValue): MatchView
  {
    MatchView(m.id, m.shipId, m.cargoId, m.userId, m.status, m.matchedAt,
              ShipSummary(s.name, s.owner, s.kind, s.dwt, s.currentPort, images))
  }

  /** `result.rows.map(...)` with the as-written images: the first row
      whose images do not parse throws. */
  function ViewsAsWritten(json: JsonCodec, ships: seq<ShipRow>, ms: seq<MatchRow>): (r: Result<seq<MatchView>, Thrown>)
    requires AllHaveShips(ships, ms)
    ensures r.Ok? ==> |r.value| == |ms|
    ensures r.Ok? ==> forall i :: 0 <= i < |ms| ==> r.value[i].id == ms[i].id && r.value[i].matchedAt == ms[i].matchedAt
    ensures r.Ok? <==> forall i :: 0 <= i < |ms| ==> ParseImagesAsWritten(json, ShipOf(ships, ms[i]).images).Ok?
  {
    if ms == [] then Ok([])
    else
      var images :- ParseImagesAsWritten(json, ShipOf(ships, ms[0]).images);
      var rest :- ViewsAsWritten(json, ships, ms[1..]);
      Ok([View(ms[0], ShipOf(ships, ms[0]), images)] + rest)
  }

  /** `Match.findByUserId` (JavaScript), as written. */
  function FindByUserIdJs(db: Db, json: JsonCodec, userId: int): Result<seq<MatchView>, Thrown>
  {
    if !db.online then Err(StoreDown)
    else
      var user :- Lift(NumberParam(userId));
      ViewsAsWritten(json, db.ships, Listed(db.matches, db.ships, user))
  }

  /** The images as `formatShip` reads them: the stored array itself. */
  function ViewsFixed(json: JsonCodec, ships: seq<ShipRow>, ms: seq<MatchRow>): (r: seq<MatchView>)
    requires AllHaveShips(ships, ms)
    ensures |r| == |ms|
    ensures forall i :: 0 <= i < |ms| ==>
      r[i] == View(ms[i], ShipOf(ships, ms[i]), Arr(Ships.NormaliseImages(json, ShipOf(ships, ms[i]).images)))
  {
    seq(|ms|, i requires 0 <= i < |ms| =>
      View(ms[i], ShipOf(ships, ms[i]), Arr(Ships.NormaliseImages(json, ShipOf(ships, ms[i]).images))))
  }

  /** `Match.findByUserId` with the images read as `formatShip` reads
      them. */
  function FindByUserIdFixed(db: Db, json: JsonCodec, userId: int): Result<seq<MatchView>, Thrown>
  {
    if !db.online then Err(StoreDown)
    else
      var user :- Lift(NumberParam(userId));
      Ok(ViewsFixed(json, db.ships, Listed(db.matches, db.ships, user)))
  }

  /** The listing holds the user's matches whose ship exists, as many as
      there are, newest first, each with its own ship. */
  lemma FindByUserIdMeaning(db: Db, json: JsonCodec, userId: int)
    requires db.online && InInt4(userId)
    ensures FindByUserIdFixed(db, json, userId).Ok?
    ensures var views := FindByUserIdFixed(db, json, userId).value;
      && |views| == |JoinableRows(db.matches, db.ships, userId)|
      && (forall i :: 0 <= i < |views| ==>
            views[i].userId == userId && views[i].shipId.Some? && FindShip(db.ships, views[i].shipId.value).Some?)
      && (forall i, j :: 0 <= i < j < |views| ==> views[i].matchedAt >= views[j].matchedAt)
  {
    var listed := Listed(db.matches, db.ships, userId);
    assert |listed| == |JoinableRows(db.matches, db.ships, userId)| by {
      assert |multiset(listed)| == |multiset(JoinableRows(db.matches, db.ships, userId))|;
    }
  }

  /** Every match of the user whose ship exists is listed. */
  lemma FindByUserIdComplete(db: Db, json: JsonCodec, userId: int, m: MatchRow)
    requires db.online && InInt4(userId)
    requires m in db.matches && Joinable(db.ships, userId, m)
    ensures FindByUserIdFixed(db, json, userId).Ok?
    ensures exists i :: 0 <= i < |FindByUserIdFixed(db, json, userId).value|
                  && FindByUserIdFixed(db, json, userId).value[i].id == m.id
  {
    var listed := Listed(db.matches, db.ships, userId);
    assert FindByUserIdFixed(db, json, userId) == Ok(ViewsFixed(json, db.ships, listed));
    var j := ListedIndex(db.matches, db.ships, userId, m);
    assert FindByUserIdFixed(db, json, userId).value[j].id == m.id;
  }

  /** Where the as-written listing succeeds it agrees with the corrected
      one except for the images. */
  lemma FindByUserIdAsWrittenAgrees(db: Db, json: JsonCodec, userId: int)
    requires FindByUserIdJs(db, json, userId).Ok?
    ensures FindByUserIdFixed(db, json, userId).Ok?
    ensures var a := FindByUserIdJs(db, json, userId).value;
      var b := FindByUserIdFixed(db, json, userId).value;
      |a| == |b| && forall i :: 0 <= i < |a| ==> a[i].id == b[i].id && a[i].matchedAt == b[i].matchedAt
  {
  }

  /** The as-written listing throws as soon as one listed ship has the
      column default `[]` as its images: the array is turned into the
      empty string, which is not JSON. */
  lemma FindByUserIdAsWrittenThrows(db: Db, json: JsonCodec, userId: int, m: MatchRow)
    requires Lawful(json)
    requires db.online && InInt4(userId)
    requires m in db.matches && Joinable(db.ships, userId, m)
    requires ShipOf(db.ships, m).images == Ships.DefaultImages
    ensures FindByUserIdJs(db, json, userId) == Err(JsonSyntax)
  {
    var listed := Listed(db.matches, db.ships, userId);
    assert FindByUserIdJs(db, json, userId) == ViewsAsWritten(json, db.ships, listed);
    var j := ListedIndex(db.matches, db.ships, userId, m);
    EmptyImagesThrow(json);
    FirstFailure(json, db.ships, listed, j);
  }

  /** A joinable match has its place in the listing. */
  lemma ListedIndex(matches: seq<MatchRow>, ships: seq<ShipRow>, userId: int, m: MatchRow) returns (j: nat)
    requires m in matches && Joinable(ships, userId, m)
    ensures j < |Listed(matches, ships, userId)| && Listed(matches, ships, userId)[j] == m
  {
    var listed := Listed(matches, ships, userId);
    assert m in JoinableRows(matches, ships, userId);
    assert m in multiset(listed);
    j :| 0 <= j < |listed| && listed[j] == m;
  }

  /** The default empty images array turns into the empty text, which is
      not JSON. */
  lemma EmptyImagesThrow(json: JsonCodec)
    requires Lawful(json)
    ensures ParseImagesAsWritten(json, Ships.DefaultImages) == Err(JsonSyntax)
  {
    assert ToJsString(Arr([])) == "";
  }

  /** When some row's images do not parse, the as-written listing throws
      a JSON syntax error. */
  lemma {:induction false} FirstFailure(json: JsonCodec, ships: seq<ShipRow>, ms: seq<MatchRow>, j: nat)
    requires AllHaveShips(ships, ms)
    requires j < |ms| && ParseImagesAsWritten(json, ShipOf(ships, ms[j]).images).Err?
    ensures ViewsAsWritten(json, ships, ms) == Err(JsonSyntax)
  {
    if ParseImagesAsWritten(json, ShipOf(ships, ms[0]).images).Ok? {
      assert AllHaveShips(ships, ms[1..]);
      FirstFailure(json, ships, ms[1..], j - 1);
    }
  }

  /** A match just created by the user is the first one listed. */
  lemma CreatedListedFirst(db: Db, json: JsonCodec, shipId: JsValue, userId: int, cargoId: JsValue)
    requires Valid(db) && InInt4(userId) && Truthy(shipId)
    requires CreateJs(db, shipId, userId, cargoId).Ok?
    ensures var (db', row) := CreateJs(db, shipId, userId, cargoId).value;
      && FindByUserIdFixed(db', json, userId).Ok?
      && |FindByUserIdFixed(db', json, userId).value| > 0
      && FindByUserIdFixed(db', json, userId).value[0].id == row.id
  {
    var (db', row) := CreateJs(db, shipId, userId, cargoId).value;
    CreateAppendsOne(db, shipId, userId, CargoDefault(cargoId), Some(Pending));
    assert NumberParam(userId) == Ok(userId);
    var rows := JoinableRows(db'.matches, db'.ships, userId);
    assert row == db'.matches[|db.matches|];
    assert Joinable(db'.ships, userId, row);
    AppendedNewest(db, row, userId);
    NewestFirst(rows, (m: MatchRow) => m.matchedAt, row);
  }

  /** The row a create appends is strictly newer than every earlier row. */
  lemma AppendedNewest(db: Db, row: MatchRow, user: int)
    requires MatchesValid(db) && row.matchedAt == db.clock + 1
    requires Joinable(db.ships, user, row)
    ensures var rows := JoinableRows(db.matches + [row], db.ships, user);
      && row in rows
      && forall i :: 0 <= i < |rows| && rows[i] != row ==> rows[i].matchedAt < row.matchedAt
  {
    var all := db.matches + [row];
    var rows := JoinableRows(all, db.ships, user);
    assert all[|db.matches|] == row;
    forall i | 0 <= i < |rows| && rows[i] != row
      ensures rows[i].matchedAt < row.matchedAt
    {
      var k :| 0 <= k < |all| && all[k] == rows[i];
      assert k < |db.matches|;
    }
  }

  /** `SELECT * FROM matches WHERE user_id = $1`: every row of the user,
      with or without a ship. */
  function HeldRows(matches: seq<MatchRow>, user: int): (r: seq<MatchRow>)
    ensures forall i :: 0 <= i < |r| ==> r[i] in matches && r[i].userId == user
    ensures forall i :: 0 <= i < |matches| && matches[i].userId == user ==> matches[i] in r
  {
    Filter(matches, (m: MatchRow) => m.userId == user)
  }

  /** `Match.findByUserId` (TypeScript): the user's rows, no join,
      `ORDER BY created_at DESC`. */
  function FindByUserIdTs(db: Db, userId: int): Result<seq<MatchRow>, Thrown>
  {
    if !db.online then Err(StoreDown)
    else
      var user :- Lift(NumberParam(userId));
      Ok(SortDesc(HeldRows(db.matches, user), (m: MatchRow) => m.createdAt))
  }

  /** The TypeScript listing is exactly the user's rows, newest first. */
  lemma FindByUserIdTsMeaning(db: Db, userId: int)
    requires db.online && InInt4(userId)
    ensures FindByUserIdTs(db, userId).Ok?
    ensures var rows := FindByUserIdTs(db, userId).value;
      && multiset(rows) == multiset(HeldRows(db.matches, userId))
      && (forall m :: m in rows <==> m in db.matches && m.userId == userId)
      && (forall i, j :: 0 <= i < j < |rows| ==> rows[i].createdAt >= rows[j].createdAt)
  {
    var rows := FindByUserIdTs(db, userId).value;
    forall m
      ensures m in rows <==> m in db.matches && m.userId == userId
    {
      if m in db.matches && m.userId == userId {
        assert m in multiset(HeldRows(db.matches, userId));
      }
      if m in rows {
        assert m in multiset(HeldRows(db.matches, userId));
      }
    }
  }

  /** The joined listing is part of the plain one: only matches whose ship
      is gone or unset are missing from it. */
  lemma ListingsNest(db: Db, json: JsonCodec, userId: int)
    requires db.online && InInt4(userId)
    ensures FindByUserIdFixed(db, json, userId).Ok? && FindByUserIdTs(db, userId).Ok?
    ensures |FindByUserIdFixed(db, json, userId).value| <= |FindByUserIdTs(db, userId).value|
    ensures (forall i :: 0 <= i < |db.matches| && db.matches[i].userId == userId ==> HasShip(db.ships, db.matches[i]))
        ==> |FindByUserIdFixed(db, json, userId).value| == |FindByUserIdTs(db, userId).value|
  {
    FindByUserIdMeaning(db, json, userId);
    var held := HeldRows(db.matches, userId);
    var joined := JoinableRows(db.matches, db.ships, userId);
    FilterImplies(db.matches, (m: MatchRow) => Joinable(db.ships, userId, m), (m: MatchRow) => m.userId == userId);
    if forall i :: 0 <= i < |db.matches| && db.matches[i].userId == userId ==> HasShip(db.ships, db.matches[i]) {
      FilterAgree(db.matches, (m: MatchRow) => Joinable(db.ships, userId, m), (m: MatchRow) => m.userId == userId);
    }
  }

  // ---------------------------------------------------------------------
  // updateStatus

  /** Sets the status of the row with that id; `stamp` also sets
      `updated_at` to the next tick. */
  function SetStatus(matches: seq<MatchRow>, id: int, status: MatchStatus, stamp: Option<nat>): (r: seq<MatchRow>)
    ensures |r| == |matches|
    ensures forall i :: 0 <= i < |matches| && matches[i].id != id ==> r[i] == matches[i]
    ensures forall i :: 0 <= i < |matches| && matches[i].id == id ==>
      r[i] == matches[i].(status := status, updatedAt := if stamp.Some? then stamp.value else matches[i].updatedAt)
  {
    seq(|matches|, i requires 0 <= i < |matches| =>
      if matches[i].id == id
      then matches[i].(status := status, updatedAt := if stamp.Some? then stamp.value else matches[i].updatedAt)
      else matches[i])
  }

  function FindMatch(matches: seq<MatchRow>, id: int): (r: Option<MatchRow>)
    ensures r.Some? ==> r.value in matches && r.value.id == id
    ensures r.None? ==> forall i :: 0 <= i < |matches| ==> matches[i].id != id
  {
    if matches == [] then None
    else if matches[0].id == id then Some(matches[0])
    else FindMatch(matches[1..], id)
  }

  /** `UPDATE matches SET status = $1 [, updated_at = NOW()] WHERE id = $2
      RETURNING *`: the id is converted, and the status must pass the CHECK
      when a row is updated. No row: nothing changes. */
  function UpdateWith(db: Db, id: JsValue, status: JsValue, stamps: bool): Result<(Db, Option<MatchRow>), Thrown>
  {
    if !db.online then Err(StoreDown)
    else
      var key :- Lift(IntegerParam(id));
      if key.None? then Ok((db, None)) else UpdateRow(db, key.value, status, stamps)
  }

  /** The update on a bound id. An array or object status is sent as its
      JSON text, which begins with `[` or `{` and so is never one of the
      four statuses: the row's CHECK rejects it. */
  function UpdateRow(db: Db, id: int, status: JsValue, stamps: bool): Result<(Db, Option<MatchRow>), Thrown>
  {
    match FindMatch(db.matches, id)
    case None => Ok((db, None))
    case Some(found) =>
      var st :- if status.Arr? || status.Obj? then Err(Database(CheckViolation)) else Lift(Required(ScalarText(status)));
      match StatusOf(st)
      case None => Err(Database(CheckViolation))
      case Some(s) =>
        var stamp := if stamps then Some(db.clock + 1) else None;
        var db' := db.(matches := SetStatus(db.matches, id, s, stamp), clock := db.clock + 1);
        Ok((db', Some(found.(status := s, updatedAt := if stamps then db.clock + 1 else found.updatedAt))))
  }

  /** `Match.updateStatus` (JavaScript): status and `updated_at`. */
  function UpdateStatusJs(db: Db, id: JsValue, status: JsValue): Result<(Db, Option<MatchRow>), Thrown>
  {
    UpdateWith(db, id, status, true)
  }

  /** `Match.updateStatus` (TypeScript): the status only. */
  function UpdateStatusTs(db: Db, id: JsValue, status: JsValue): Result<(Db, Option<MatchRow>), Thrown>
  {
    UpdateWith(db, id, status, false)
  }

  /** An update on an id no row has returns nothing and changes nothing. */
  lemma UpdateAbsent(db: Db, id: int, status: JsValue, stamps: bool)
    requires db.online && InInt4(id)
    requires forall i :: 0 <= i < |db.matches| ==> db.matches[i].id != id
    ensures UpdateWith(db, Number(Finite(id)), status, stamps) == Ok((db, None))
  {
  }

  /** Any of the four statuses is accepted on an existing row, whatever its
      current status: only that row's status (and, in the JavaScript draft,
      its `updated_at`) changes. */
  lemma UpdateChangesOnlyStatus(db: Db, id: int, st: MatchStatus, stamps: bool)
    requires db.online && InInt4(id)
    requires exists i :: 0 <= i < |db.matches| && db.matches[i].id == id
    ensures var r := UpdateWith(db, Number(Finite(id)), Str(StatusName(st)), stamps);
      && r.Ok? && r.value.1.Some?
      && var (db', row) := (r.value.0, r.value.1.value);
      && row.id == id && row.status == st
      && db'.users == db.users && db'.ships == db.ships && |db'.matches| == |db.matches|
      && (forall i :: 0 <= i < |db.matches| && db.matches[i].id != id ==> db'.matches[i] == db.matches[i])
      && (forall i :: 0 <= i < |db.matches| && db.matches[i].id == id ==>
            && db'.matches[i].status == st
            && db'.matches[i].(status := db.matches[i].status, updatedAt := db.matches[i].updatedAt) == db.matches[i]
            && (stamps ==> db'.matches[i].updatedAt == db.clock + 1)
            && (!stamps ==> db'.matches[i].updatedAt == db.matches[i].updatedAt))
  {
    assert IntegerParam(Number(Finite(id))) == Ok(Some(id));
    assert UpdateWith(db, Number(Finite(id)), Str(StatusName(st)), stamps) == UpdateRow(db, id, Str(StatusName(st)), stamps);
    UpdateRowSets(db, id, st, stamps);
  }

  /** An array or object status reaches an existing row as JSON text and
      fails the status CHECK, leaving the store as it was. */
  lemma UpdateCompositeStatusChecked(db: Db, id: int, status: JsValue, stamps: bool)
    requires FindMatch(db.matches, id).Some? && (status.Arr? || status.Obj?)
    ensures UpdateRow(db, id, status, stamps) == Err(Database(CheckViolation))
  {
  }

  /** On a row that exists, the update writes the named status. */
  lemma UpdateRowSets(db: Db, id: int, st: MatchStatus, stamps: bool)
    requires FindMatch(db.matches, id).Some?
    ensures var found := FindMatch(db.matches, id).value;
      UpdateRow(db, id, Str(StatusName(st)), stamps)
        == Ok((db.(matches := SetStatus(db.matches, id, st, if stamps then Some(db.clock + 1) else None), clock := db.clock + 1),
               Some(found.(status := st, updatedAt := if stamps then db.clock + 1 else found.updatedAt))))
  {
    assert ScalarText(Str(StatusName(st))) == Some(StatusName(st));
    assert StatusOf(StatusName(st)) == Some(st);
  }

  /** An update keeps every column but `status` and `updated_at`, and
      stamps no later than the store's clock. */
  lemma UpdateKeepsKeys(db: Db, id: JsValue, status: JsValue, stamps: bool)
    requires UpdateWith(db, id, status, stamps).Ok?
    ensures var db' := UpdateWith(db, id, status, stamps).value.0;
      && db'.users == db.users && db'.ships == db.ships && db'.cargoIds == db.cargoIds && db'.next == db.next
      && db'.clock >= db.clock && |db'.matches| == |db.matches|
      && forall i :: 0 <= i < |db.matches| ==>
           && db'.matches[i].(status := db.matches[i].status, updatedAt := db.matches[i].updatedAt) == db.matches[i]
           && (db'.matches[i].updatedAt == db.matches[i].updatedAt || db'.matches[i].updatedAt == db'.clock)
  {
    if db.online {
      var key := IntegerParam(id).value;
      if key.Some? {
        assert UpdateWith(db, id, status, stamps) == UpdateRow(db, key.value, status, stamps);
        UpdateRowKeeps(db, key.value, status, stamps);
      }
    }
  }

  lemma UpdateRowKeeps(db: Db, id: int, status: JsValue, stamps: bool)
    requires UpdateRow(db, id, status, stamps).Ok?
    ensures var db' := UpdateRow(db, id, status, stamps).value.0;
      && db'.users == db.users && db'.ships == db.ships && db'.cargoIds == db.cargoIds && db'.next == db.next
      && db'.clock >= db.clock && |db'.matches| == |db.matches|
      && forall i :: 0 <= i < |db.matches| ==>
           && db'.matches[i].(status := db.matches[i].status, updatedAt := db.matches[i].updatedAt) == db.matches[i]
           && (db'.matches[i].updatedAt == db.matches[i].updatedAt || db'.matches[i].updatedAt == db'.clock)
  {
  }

  /** Updating a status keeps the store valid. */
  lemma UpdateValid(db: Db, id: JsValue, status: JsValue, stamps: bool)
    requires Valid(db)
    requires UpdateWith(db, id, status, stamps).Ok?
    ensures Valid(UpdateWith(db, id, status, stamps).value.0)
  {
    var db' := UpdateWith(db, id, status, stamps).value.0;
    UpdateKeepsKeys(db, id, status, stamps);
    assert UsersValid(db') && ShipsValid(db');
    forall i, j | 0 <= i < j < |db'.matches|
      ensures db'.matches[i].id != db'.matches[j].id && !SamePair(db'.matches[i], db'.matches[j])
    {
      assert !SamePair(db.matches[i], db.matches[j]);
    }
    forall i | 0 <= i < |db'.matches|
      ensures db'.matches[i].id < db'.next.matches && db'.matches[i].matchedAt <= db'.clock && db'.matches[i].createdAt <= db'.clock
      ensures FindUser(db'.users, db'.matches[i].userId).Some?
      ensures db'.matches[i].shipId.Some? ==> FindShip(db'.ships, db'.matches[i].shipId.value).Some?
      ensures db'.matches[i].cargoId.Some? ==> db'.matches[i].cargoId.value in db'.cargoIds
    {
      assert db'.matches[i].id == db.matches[i].id;
    }
  }
}
