/**
  server/routes/ships.js and server/routes/ships.ts: the catalogue search,
  one ship by id, a shipowner adding a ship, and a shipowner's own ships.
*/
module ShipRoutes {
  import opened Base
  import opened Js
  import opened Sql
  import opened Store
  import opened Errors
  import opened Http
  import opened Users
  import Ships

  const ShipNotFoundMessage: string := "Ship not found"
  const ShipCreatedMessage: string := "Ship created successfully"
  const OnlyOwnersCreateMessage: string := "Only shipowners can create ships"
  const OnlyOwnersListMessage: string := "Only shipowners can view their ships"

  datatype ShipBody =
    | Failure(error: string)
    | Views(views: seq<Ships.ShipView>)
    | Rows(rows: seq<ShipRow>)
    | View(view: Ships.ShipView)
    | Row(row: ShipRow)
    | CreatedView(message: string, createdView: Ships.ShipView)
    | CreatedRow(message: string, createdRow: ShipRow)

  type ShipReply = Reply<ShipBody>

  /** `req.query`: a key given once maps to its text. */
  type Query = map<string, string>

  /** `req.query.x`: the text, or `undefined`. */
  function QueryText(q: Query, key: string): Option<string>
  {
    if key in q then Some(q[key]) else None
  }

  /** `req.query.x ? parseInt(req.query.x) : null` (JavaScript) or
      `: undefined` (TypeScript); both mean "no bound" to the search. */
  function QueryBound(q: Query, key: string): Option<Num>
  {
    if key in q && q[key] != "" then Some(ParseInt(q[key])) else None
  }

  /** The filters object both drafts build from the query string. */
  function QueryFilters(q: Query): (f: Ships.Filters)
  {
    Ships.Filters(QueryText(q, "type"), QueryBound(q, "minDwt"), QueryBound(q, "maxDwt"), QueryText(q, "port"))
  }

  /** A bound written as the decimal text of a non-zero integer is that
      integer; an absent or empty one is no bound. */
  lemma QueryBoundMeaning(q: Query, key: string, n: int)
    ensures key !in q || q[key] == "" ==> !Ships.HasNum(QueryBound(q, key))
    ensures key in q && q[key] == IntToDecimal(n) && n != 0 ==>
      Ships.HasNum(QueryBound(q, key)) && QueryBound(q, key).value.n == n
  {
    if key in q && q[key] == IntToDecimal(n) {
      ParseIntDecimal(n);
    }
  }

  /** The type and port are taken as written, and each bound as above. */
  lemma QueryFiltersMeaning(q: Query, n: int)
    ensures var f := QueryFilters(q);
      && (f.kind.Some? <==> "type" in q) && (f.kind.Some? ==> f.kind.value == q["type"])
      && (f.port.Some? <==> "port" in q) && (f.port.Some? ==> f.port.value == q["port"])
      && ("minDwt" !in q || q["minDwt"] == "" ==> !Ships.HasNum(f.minDwt))
      && ("maxDwt" !in q || q["maxDwt"] == "" ==> !Ships.HasNum(f.maxDwt))
      && ("minDwt" in q && q["minDwt"] == IntToDecimal(n) && n != 0 ==> Ships.HasNum(f.minDwt) && f.minDwt.value.n == n)
      && ("maxDwt" in q && q["maxDwt"] == IntToDecimal(n) && n != 0 ==> Ships.HasNum(f.maxDwt) && f.maxDwt.value.n == n)
  {
    QueryBoundMeaning(q, "minDwt", n);
    QueryBoundMeaning(q, "maxDwt", n);
  }

  /** GET `/` (JavaScript). */
  function CatalogueJs(db: Db, json: JsonCodec, q: Query): (reply: ShipReply)
    ensures reply.Json? && reply.status in {200, 500}
  {
    match Ships.FindAllJs(db, json, QueryFilters(q))
    case Ok(views) => Json(200, Views(views))
    case Err(_) => Json(500, Failure(InternalErrorMessage))
  }

  /** GET `/` (TypeScript): the filters object is always passed. */
  function CatalogueTs(db: Db, q: Query): (reply: ShipReply)
    ensures reply.Json? && reply.status in {200, 500}
  {
    match Ships.FindAllTs(db, Some(QueryFilters(q)))
    case Ok(rows) => Json(200, Rows(rows))
    case Err(_) => Json(500, Failure(InternalErrorMessage))
  }

  /** The search answers 200 exactly when the store is up and the bounds
      are 32-bit integers, and then lists, newest first, the formatted
      ships that satisfy the query (JavaScript) or exactly the stored ships
      that do (TypeScript). */
  lemma CatalogueMeaning(db: Db, json: JsonCodec, q: Query)
    ensures CatalogueJs(db, json, q).status == 200 <==> db.online && Ships.BoundsFit(QueryFilters(q))
    ensures CatalogueTs(db, q).status == 200 <==> db.online && Ships.BoundsFit(QueryFilters(q))
    ensures CatalogueJs(db, json, q).status == 200 ==>
      var views := CatalogueJs(db, json, q).body.views;
      && views == Ships.FormatAll(json, Ships.NewestFirst(Filter(db.ships, (row: ShipRow) => Ships.SatisfiesJs(QueryFilters(q), row))))
      && (forall i, j :: 0 <= i < j < |views| ==> views[i].createdAt >= views[j].createdAt)
    ensures CatalogueTs(db, q).status == 200 ==>
      CatalogueTs(db, q).body.rows == Filter(db.ships, (row: ShipRow) => Ships.SatisfiesTs(QueryFilters(q), row))
  {
    Ships.FindAllJsMeaning(db, json, QueryFilters(q));
    Ships.FindAllTsMeaning(db, QueryFilters(q));
  }

  /** A TypeScript search with a minimum deadweight lists only ships at
      least that heavy, and every stored one that is. */
  lemma MinimumDeadweight(db: Db, q: Query, n: int)
    requires db.online && InInt4(n) && n != 0
    requires q.Keys == {"minDwt"} && q["minDwt"] == IntToDecimal(n)
    ensures CatalogueTs(db, q).status == 200
    ensures forall row :: row in CatalogueTs(db, q).body.rows <==> row in db.ships && row.dwt >= n
  {
    QueryFiltersMeaning(q, n);
    var f := QueryFilters(q);
    assert Ships.BoundsFit(f);
    CatalogueMeaning(db, JsonCodec(_ => None, _ => None), q);
  }

  /** GET `/:id` (JavaScript): no token is asked for; the path text is
      the parameter. */
  function ShipByIdJs(db: Db, json: JsonCodec, id: string): (reply: ShipReply)
    ensures reply.Json? && reply.status in {200, 404, 500}
  {
    match Ships.FindByIdJs(db, json, id)
    case Err(_) => Json(500, Failure(InternalErrorMessage))
    case Ok(None) => Json(404, Failure(ShipNotFoundMessage))
    case Ok(Some(view)) => Json(200, View(view))
  }

  /** GET `/:id` (TypeScript): the path text through `Number`. */
  function ShipByIdTs(db: Db, id: string): (reply: ShipReply)
    ensures reply.Json? && reply.status in {200, 404, 500}
  {
    match Ships.FindByIdTs(db, ToNumber(id))
    case Err(_) => Json(500, Failure(InternalErrorMessage))
    case Ok(None) => Json(404, Failure(ShipNotFoundMessage))
    case Ok(Some(row)) => Json(200, Row(row))
  }

  /** On the decimal text of a 32-bit id both drafts answer alike: 200
      with the ship that has that id, or 404 when none has. */
  lemma ShipByIdAgree(db: Db, json: JsonCodec, n: int)
    requires db.online && InInt4(n)
    ensures var js := ShipByIdJs(db, json, IntToDecimal(n));
      var ts := ShipByIdTs(db, IntToDecimal(n));
      && js.status == ts.status
      && (ts.status == 404 <==> FindShip(db.ships, n).None?)
      && (ts.status == 200 <==> FindShip(db.ships, n).Some?)
      && (ts.status == 200 ==> ts.body == Row(FindShip(db.ships, n).value)
                               && js.body == View(Ships.FormatShip(json, FindShip(db.ships, n).value)))
  {
    Ships.FindByIdAgree(db, json, n);
  }

  /** `Number` reads `7.0` as 7, so the TypeScript route answers for
      `/7.0` as for `/7`; the JavaScript route hands the text itself to
      the `INTEGER` comparison, which rejects it. */
  lemma ShipByIdPointZero(db: Db, json: JsonCodec, n: int)
    ensures ShipByIdTs(db, IntToDecimal(n) + ".0") == ShipByIdTs(db, IntToDecimal(n))
    ensures ShipByIdJs(db, json, IntToDecimal(n) + ".0").status == 500
  {
    ToNumberPointZero(n);
    ToNumberDecimal(n);
    Int4PointZero(n);
  }

  /** `req.user.company || req.user.name`. */
  function OwnerName(user: Account): (owner: string)
    ensures owner == user.Name() || Some(owner) == user.Company()
    ensures user.Company().Some? && user.Company().value != "" ==> owner == user.Company().value
    ensures !(user.Company().Some? && user.Company().value != "") ==> owner == user.Name()
  {
    if user.Company().Some? && user.Company().value != "" then user.Company().value else user.Name()
  }

  /** `{ ...req.body, ownerId: req.user.id, owner: ... }`: the two keys
      override whatever the body had. */
  function ShipData(user: Account, body: map<string, JsValue>): (data: map<string, JsValue>)
    ensures data.Keys == body.Keys + {"ownerId", "owner"}
    ensures forall k :: k in body && k != "ownerId" && k != "owner" ==> data[k] == body[k]
    ensures data["ownerId"] == Number(Finite(user.Id())) && data["owner"] == Str(OwnerName(user))
  {
    body["ownerId" := Number(Finite(user.Id()))]["owner" := Str(OwnerName(user))]
  }

  /** POST `/` (JavaScript). */
  function CreateJs(db: Db, json: JsonCodec, user: Account, body: map<string, JsValue>): (Db, ShipReply)
  {
    if user.Kind() != Shipowner then (db, Json(403, Failure(OnlyOwnersCreateMessage)))
    else
      match Ships.CreateJs(db, json, ShipData(user, body))
      case Err(_) => (db, Json(500, Failure(InternalErrorMessage)))
      case Ok((db', view)) => (db', Json(201, CreatedView(ShipCreatedMessage, view)))
  }

  /** POST `/` (TypeScript, as written): the data carries `ownerId`, but
      the model reads `owner_id`. */
  function CreateTs(db: Db, json: JsonCodec, user: Account, body: map<string, JsValue>): (Db, ShipReply)
  {
    CreateTsOf(db, json, user, ShipData(user, body))
  }

  /** POST `/` (TypeScript, corrected): the owner also under the key the
      model reads. */
  function CreateTsFixed(db: Db, json: JsonCodec, user: Account, body: map<string, JsValue>): (Db, ShipReply)
  {
    CreateTsOf(db, json, user, ShipData(user, body)["owner_id" := Number(Finite(user.Id()))])
  }

  function CreateTsOf(db: Db, json: JsonCodec, user: Account, data: map<string, JsValue>): (Db, ShipReply)
  {
    if user.Kind() != Shipowner then (db, Json(403, Failure(OnlyOwnersCreateMessage)))
    else
      match Ships.CreateTs(db, json, data)
      case Err(_) => (db, Json(500, Failure(InternalErrorMessage)))
      case Ok((db', row)) => (db', Json(201, CreatedRow(ShipCreatedMessage, row)))
  }

  /** Only shipowners add ships: a charterer is answered 403 by every
      draft and nothing changes. */
  lemma CreateNeedsShipowner(db: Db, json: JsonCodec, user: Account, body: map<string, JsValue>)
    requires user.Kind() != Shipowner
    ensures CreateJs(db, json, user, body) == (db, Json(403, Failure(OnlyOwnersCreateMessage)))
    ensures CreateTs(db, json, user, body) == (db, Json(403, Failure(OnlyOwnersCreateMessage)))
    ensures CreateTsFixed(db, json, user, body) == (db, Json(403, Failure(OnlyOwnersCreateMessage)))
  {
  }

  /** Any answer but 201 leaves the store as it was. */
  lemma CreateFailureChangesNothing(db: Db, json: JsonCodec, user: Account, body: map<string, JsValue>)
    ensures CreateJs(db, json, user, body).1.status != 201 ==> CreateJs(db, json, user, body).0 == db
    ensures CreateTs(db, json, user, body).1.status != 201 ==> CreateTs(db, json, user, body).0 == db
  {
  }

  /** GET `/my/ships` (JavaScript). */
  function MyShipsJs(db: Db, json: JsonCodec, user: Account): (reply: ShipReply)
    ensures reply.Json? && reply.status in {200, 403, 500}
    ensures reply.status == 403 <==> user.Kind() != Shipowner
  {
    if user.Kind() != Shipowner then Json(403, Failure(OnlyOwnersListMessage))
    else
      match Ships.FindByOwnerIdJs(db, json, user.Id())
      case Ok(views) => Json(200, Views(views))
      case Err(_) => Json(500, Failure(InternalErrorMessage))
  }

  /** GET `/my/ships` (TypeScript). */
  function MyShipsTs(db: Db, user: Account): (reply: ShipReply)
    ensures reply.Json? && reply.status in {200, 403, 500}
    ensures reply.status == 403 <==> user.Kind() != Shipowner
  {
    if user.Kind() != Shipowner then Json(403, Failure(OnlyOwnersListMessage))
    else
      match Ships.FindByOwnerIdTs(db, user.Id())
      case Ok(rows) => Json(200, Rows(rows))
      case Err(_) => Json(500, Failure(InternalErrorMessage))
  }

  /** A shipowner's list holds exactly the stored ships with their id as
      owner. */
  lemma MyShipsTsMeaning(db: Db, user: Account)
    requires db.online && InInt4(user.Id()) && user.Kind() == Shipowner
    ensures MyShipsTs(db, user).status == 200
    ensures forall row :: row in MyShipsTs(db, user).body.rows <==> row in db.ships && row.ownerId == Some(user.Id())
  {
    Ships.FindByOwnerIdTsMeaning(db, user.Id());
    var rows := MyShipsTs(db, user).body.rows;
    forall row | row in db.ships && row.ownerId == Some(user.Id())
      ensures row in rows
    {
      var i :| 0 <= i < |db.ships| && db.ships[i] == row;
    }
  }

  /** The ship a JavaScript create appends carries the owner its data
      named, and the returned view shows it. */
  lemma CreateJsOwner(db: Db, json: JsonCodec, data: map<string, JsValue>)
    requires Ships.CreateJs(db, json, data).Ok?
    ensures var (db', view) := Ships.CreateJs(db, json, data).value;
      && IntegerParam(Get(data, "ownerId")) == Ok(db'.ships[|db.ships|].ownerId)
      && view.ownerId == db'.ships[|db.ships|].ownerId
  {
  }

  /** A ship a shipowner adds with the JavaScript draft is owned by them,
      whatever the body says about owners, and their list grows by one. */
  lemma CreatedShipIsMineJs(db: Db, json: JsonCodec, user: Account, body: map<string, JsValue>)
    requires InInt4(user.Id())
    requires CreateJs(db, json, user, body).1.status == 201
    ensures var (db', reply) := CreateJs(db, json, user, body);
      && reply.body.CreatedView?
      && reply.body.createdView.ownerId == Some(user.Id())
      && MyShipsJs(db', json, user).status == 200
      && |MyShipsJs(db', json, user).body.views| == |OwnedRowsOf(db, user.Id())| + 1
  {
    var data := ShipData(user, body);
    var (db', view) := Ships.CreateJs(db, json, data).value;
    CreateJsOwner(db, json, data);
    assert IntegerParam(Number(Finite(user.Id()))) == Ok(Some(user.Id()));
    var row := db'.ships[|db.ships|];
    assert db'.ships == db.ships + [row];
    OwnedRowsAppended(db.ships, row, user.Id());
    Ships.FindByOwnerIdJsMeaning(db', json, user.Id());
    Ships.FindByOwnerIdTsMeaning(db', user.Id());
  }

  function OwnedRowsOf(db: Db, ownerId: int): seq<ShipRow>
  {
    Ships.OwnedRows(db.ships, ownerId)
  }

  /** Appending an owned row adds one to the owner's rows. */
  lemma OwnedRowsAppended(ships: seq<ShipRow>, row: ShipRow, ownerId: int)
    requires row.ownerId == Some(ownerId)
    ensures Ships.OwnedRows(ships + [row], ownerId) == Ships.OwnedRows(ships, ownerId) + [row]
  {
    FilterAppend(ships, row, (r: ShipRow) => Ships.OwnedBy(ownerId, r));
  }

  /** The TypeScript draft as written: a ship added from a body without
      `owner_id` has no owner and is missing from the owner's own list;
      a body naming `owner_id` makes whoever it names the owner. */
  lemma CreatedShipIsNotMineTs(db: Db, json: JsonCodec, user: Account, body: map<string, JsValue>)
    requires CreateTs(db, json, user, body).1.status == 201
    ensures var (db', reply) := CreateTs(db, json, user, body);
      && reply.body.CreatedRow?
      && IntegerParam(Get(body, "owner_id")) == Ok(reply.body.createdRow.ownerId)
      && ("owner_id" !in body ==>
            reply.body.createdRow.ownerId.None? && reply.body.createdRow !in OwnedRowsOf(db', user.Id()))
  {
    var data := ShipData(user, body);
    assert Get(data, "owner_id") == Get(body, "owner_id");
    var (db', row) := Ships.CreateTs(db, json, data).value;
    assert Ships.ParamsTs(data).ownerId == Get(body, "owner_id");
  }

  /** The corrected TypeScript draft: the added ship is the shipowner's
      and shows in their list. */
  lemma CreatedShipIsMineTsFixed(db: Db, json: JsonCodec, user: Account, body: map<string, JsValue>)
    requires InInt4(user.Id())
    requires CreateTsFixed(db, json, user, body).1.status == 201
    ensures var (db', reply) := CreateTsFixed(db, json, user, body);
      && reply.body.CreatedRow?
      && reply.body.createdRow.ownerId == Some(user.Id())
      && reply.body.createdRow in MyShipsTs(db', user).body.rows
      && MyShipsTs(db', user).status == 200
  {
    var data := ShipData(user, body)["owner_id" := Number(Finite(user.Id()))];
    var (db', row) := Ships.CreateTs(db, json, data).value;
    assert Ships.ParamsTs(data).ownerId == Number(Finite(user.Id()));
    assert IntegerParam(Number(Finite(user.Id()))) == Ok(Some(user.Id()));
    assert db'.online;
    MyShipsTsMeaning(db', user);
  }
}
