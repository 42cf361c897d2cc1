/**
  server/routes/matches.js and server/routes/matches.ts: swipe right,
  list my matches, set a match's status. The user always comes from the
  token gate, never from the body.
*/
module MatchRoutes {
  import opened Base
  import opened Js
  import opened Sql
  import opened Store
  import opened Errors
  import opened Http
  import opened Users
  import opened Matches

  const ShipIdRequiredMessage: string := "Ship ID is required"
  const CreatedMessage: string := "Match created successfully"
  const InvalidStatusMessage: string := "Invalid status"
  const NotFoundMessage: string := "Match not found"
  const UpdatedMessage: string := "Match status updated successfully"

  datatype MatchBody =
    | Failure(error: string)
    | Created(message: string, created: MatchRow)
    | Views(views: seq<MatchView>)
    | Rows(rows: seq<MatchRow>)
    | Updated(message: string, updated: MatchRow)

  type MatchReply = Reply<MatchBody>

  /** The catch of POST `/`: "Match already exists" is 409, anything else
      500. */
  function CreateCaught(e: Thrown): (reply: MatchReply)
    ensures reply.Json?
    ensures reply.status == 409 <==> e == MatchAlreadyExists
    ensures reply.status != 409 ==> reply == Json(500, Failure(InternalErrorMessage))
  {
    MessagesIdentify(e);
    if Message(e) == MatchExistsMessage then Json(409, Failure(Message(e)))
    else Json(500, Failure(InternalErrorMessage))
  }

  /** POST `/`, over the create of either model draft. */
  function CreateWithModel(db: Db, user: Account, body: map<string, JsValue>, typed: bool): (Db, MatchReply)
  {
    var shipId := Get(body, "shipId");
    if !Truthy(shipId) then (db, Json(400, Failure(ShipIdRequiredMessage)))
    else
      var created := if typed then Matches.CreateTs(db, shipId, user.Id(), Get(body, "cargoId"))
                     else Matches.CreateJs(db, shipId, user.Id(), Get(body, "cargoId"));
      match created
      case Err(e) => (db, CreateCaught(e))
      case Ok((db', row)) => (db', Json(201, Created(CreatedMessage, row)))
  }

  /** POST `/` (JavaScript). */
  function CreateJs(db: Db, user: Account, body: map<string, JsValue>): (Db, MatchReply)
  {
    CreateWithModel(db, user, body, false)
  }

  /** POST `/` (TypeScript). */
  function CreateTs(db: Db, user: Account, body: map<string, JsValue>): (Db, MatchReply)
  {
    CreateWithModel(db, user, body, true)
  }

  /** A falsy ship id is a 400 before any statement; every answer other
      than 201 leaves the store as it was. */
  lemma CreateRejects(db: Db, user: Account, body: map<string, JsValue>, typed: bool)
    ensures !Truthy(Get(body, "shipId")) ==> CreateWithModel(db, user, body, typed) == (db, Json(400, Failure(ShipIdRequiredMessage)))
    ensures CreateWithModel(db, user, body, typed).1.Json? && CreateWithModel(db, user, body, typed).1.status != 201 ==>
      CreateWithModel(db, user, body, typed).0 == db
  {
  }

  /** A created match belongs to the authenticated user, whatever the body
      says, and is the single row appended. */
  lemma CreatedForCaller(db: Db, user: Account, body: map<string, JsValue>, typed: bool)
    requires CreateWithModel(db, user, body, typed).1 == Json(201, CreateWithModel(db, user, body, typed).1.body)
    ensures var (db', reply) := CreateWithModel(db, user, body, typed);
      && reply.body.Created?
      && reply.body.created.userId == user.Id()
      && db'.matches == db.matches + [reply.body.created]
      && IntegerParam(Get(body, "shipId")) == Ok(reply.body.created.shipId)
  {
    var shipId := Get(body, "shipId");
    var cargo := Get(body, "cargoId");
    if typed {
      CreateAppendsOne(db, shipId, user.Id(), cargo, db.matchStatusDefault);
    } else {
      CreateAppendsOne(db, shipId, user.Id(), CargoDefault(cargo), Some(Pending));
    }
  }

  /** A pair that already has a row is answered 409 and nothing changes. */
  lemma DuplicateIs409(db: Db, user: Account, body: map<string, JsValue>, typed: bool, ship: int, i: nat)
    requires db.online && InInt4(user.Id()) && Truthy(Get(body, "shipId")) && ShipParam(Get(body, "shipId"), ship)
    requires i < |db.matches| && db.matches[i].shipId == Some(ship) && db.matches[i].userId == user.Id()
    ensures CreateWithModel(db, user, body, typed) == (db, Json(409, Failure(MatchExistsMessage)))
  {
    var shipId := Get(body, "shipId");
    var cargo := Get(body, "cargoId");
    if typed {
      DuplicateRejected(db, shipId, ship, user.Id(), cargo, db.matchStatusDefault);
    } else {
      DuplicateRejected(db, shipId, ship, user.Id(), CargoDefault(cargo), Some(Pending));
    }
  }

  /** GET `/my` (JavaScript): the joined listing, or 500. */
  function MyMatchesJs(db: Db, json: JsonCodec, user: Account): (reply: MatchReply)
    ensures reply.Json? && reply.status in {200, 500}
    ensures reply.status == 200 <==> Matches.FindByUserIdJs(db, json, user.Id()).Ok?
  {
    match Matches.FindByUserIdJs(db, json, user.Id())
    case Ok(views) => Json(200, Views(views))
    case Err(_) => Json(500, Failure(InternalErrorMessage))
  }

  /** GET `/my` (TypeScript): the user's rows, or 500. */
  function MyMatchesTs(db: Db, user: Account): (reply: MatchReply)
    ensures reply.Json? && reply.status in {200, 500}
    ensures reply.status == 200 <==> Matches.FindByUserIdTs(db, user.Id()).Ok?
  {
    match Matches.FindByUserIdTs(db, user.Id())
    case Ok(rows) => Json(200, Rows(rows))
    case Err(_) => Json(500, Failure(InternalErrorMessage))
  }

  /** The TypeScript listing answers with every row of the caller and no
      other, newest first. */
  lemma MyMatchesTsAreMine(db: Db, user: Account)
    requires db.online && InInt4(user.Id())
    ensures MyMatchesTs(db, user).status == 200
    ensures var rows := MyMatchesTs(db, user).body.rows;
      && (forall m :: m in rows <==> m in db.matches && m.userId == user.Id())
      && (forall i, j :: 0 <= i < j < |rows| ==> rows[i].createdAt >= rows[j].createdAt)
  {
    FindByUserIdTsMeaning(db, user.Id());
  }

  /** `['pending', 'accepted', 'negotiating', 'confirmed'].includes(status)`. */
  predicate IsStatus(v: JsValue)
  {
    v.Str? && StatusOf(v.s).Some?
  }

  /** The answer of PUT `/:id/status` to what the update returned. */
  function StatusAnswer(db: Db, updated: Result<(Db, Option<MatchRow>), Thrown>): (Db, MatchReply)
  {
    match updated
    case Err(_) => (db, Json(500, Failure(InternalErrorMessage)))
    case Ok((_, None)) => (db, Json(404, Failure(NotFoundMessage)))
    case Ok((db', Some(row))) => (db', Json(200, Updated(UpdatedMessage, row)))
  }

  /** PUT `/:id/status`, over the update of either model draft: the path
      text as is (JavaScript) or through `Number` (TypeScript). */
  function SetStatusWithModel(db: Db, id: string, body: map<string, JsValue>, typed: bool): (Db, MatchReply)
  {
    var status := Get(body, "status");
    if !IsStatus(status) then (db, Json(400, Failure(InvalidStatusMessage)))
    else if typed then StatusAnswer(db, UpdateStatusTs(db, Number(ToNumber(id)), status))
    else StatusAnswer(db, UpdateStatusJs(db, Str(id), status))
  }

  function SetStatusJs(db: Db, id: string, body: map<string, JsValue>): (Db, MatchReply)
  {
    SetStatusWithModel(db, id, body, false)
  }

  function SetStatusTs(db: Db, id: string, body: map<string, JsValue>): (Db, MatchReply)
  {
    SetStatusWithModel(db, id, body, true)
  }

  /** The decimal text of an id binds as the id itself, both as text and
      through `Number`. */
  lemma PathIdBinds(n: int)
    ensures IntegerParam(Str(IntToDecimal(n))) == IntegerParam(Number(Finite(n)))
    ensures Number(ToNumber(IntToDecimal(n))) == Number(Finite(n))
  {
    ToNumberDecimal(n);
  }

  /** `Number` reads `7.0` as 7, so the TypeScript route updates for
      `/7.0/status` as for `/7/status`; the JavaScript route binds the
      text itself, which the `INTEGER` comparison rejects. */
  lemma StatusPointZero(db: Db, n: int, body: map<string, JsValue>)
    ensures SetStatusTs(db, IntToDecimal(n) + ".0", body) == SetStatusTs(db, IntToDecimal(n), body)
    ensures IsStatus(Get(body, "status")) ==> SetStatusJs(db, IntToDecimal(n) + ".0", body).1.status == 500
  {
    ToNumberPointZero(n);
    ToNumberDecimal(n);
    SameNumberSameStatus(db, IntToDecimal(n) + ".0", IntToDecimal(n), body);
    PointZeroRejected(db, n, Get(body, "status"));
  }

  /** The TypeScript route sees the path id only through `Number`. */
  lemma SameNumberSameStatus(db: Db, a: string, b: string, body: map<string, JsValue>)
    requires ToNumber(a) == ToNumber(b)
    ensures SetStatusTs(db, a, body) == SetStatusTs(db, b, body)
  {
  }

  lemma PointZeroRejected(db: Db, n: int, status: JsValue)
    ensures UpdateStatusJs(db, Str(IntToDecimal(n) + ".0"), status).Err?
  {
    Int4PointZero(n);
    assert IntegerParam(Str(IntToDecimal(n) + ".0")).Err?;
  }

  /** A status outside the four is a 400 before any statement. */
  lemma InvalidStatusRejected(db: Db, id: string, body: map<string, JsValue>, typed: bool)
    requires !IsStatus(Get(body, "status"))
    ensures SetStatusWithModel(db, id, body, typed) == (db, Json(400, Failure(InvalidStatusMessage)))
  {
  }

  /** The update depends on the id only through its bound value. */
  lemma UpdateSameKey(db: Db, a: JsValue, b: JsValue, status: JsValue, stamps: bool)
    requires IntegerParam(a) == IntegerParam(b)
    ensures UpdateWith(db, a, status, stamps) == UpdateWith(db, b, status, stamps)
  {
  }

  /** On the decimal text of an id, either draft's route updates exactly
      as the model does on the id itself. */
  lemma StatusRouteOnId(db: Db, n: int, st: MatchStatus, typed: bool)
    ensures SetStatusWithModel(db, IntToDecimal(n), map["status" := Str(StatusName(st))], typed)
         == StatusAnswer(db, UpdateWith(db, Number(Finite(n)), Str(StatusName(st)), !typed))
  {
    PathIdBinds(n);
    var status := Str(StatusName(st));
    var body := map["status" := status];
    assert Get(body, "status") == status;
    assert IsStatus(status);
    if typed {
      assert SetStatusWithModel(db, IntToDecimal(n), body, true)
          == StatusAnswer(db, UpdateStatusTs(db, Number(ToNumber(IntToDecimal(n))), status));
    } else {
      assert SetStatusWithModel(db, IntToDecimal(n), body, false)
          == StatusAnswer(db, UpdateStatusJs(db, Str(IntToDecimal(n)), status));
      UpdateSameKey(db, Str(IntToDecimal(n)), Number(Finite(n)), status, true);
    }
  }

  /** There is no transition guard: any of the four statuses is written
      over any current one of an existing match, and the answer carries
      it. */
  lemma AnyStatusAccepted(db: Db, n: int, st: MatchStatus, typed: bool)
    requires db.online && InInt4(n)
    requires exists i :: 0 <= i < |db.matches| && db.matches[i].id == n
    ensures var (db', reply) := SetStatusWithModel(db, IntToDecimal(n), map["status" := Str(StatusName(st))], typed);
      && reply.Json? && reply.status == 200 && reply.body.Updated?
      && reply.body.updated.id == n && reply.body.updated.status == st
      && |db'.matches| == |db.matches|
      && (forall i :: 0 <= i < |db.matches| && db.matches[i].id == n ==> db'.matches[i].status == st)
      && (forall i :: 0 <= i < |db.matches| && db.matches[i].id != n ==> db'.matches[i] == db.matches[i])
  {
    StatusRouteOnId(db, n, st, typed);
    UpdateChangesOnlyStatus(db, n, st, !typed);
  }

  /** An id no match has is a 404 that changes nothing. */
  lemma AbsentIs404(db: Db, n: int, st: MatchStatus, typed: bool)
    requires db.online && InInt4(n)
    requires forall i :: 0 <= i < |db.matches| ==> db.matches[i].id != n
    ensures SetStatusWithModel(db, IntToDecimal(n), map["status" := Str(StatusName(st))], typed)
         == (db, Json(404, Failure(NotFoundMessage)))
  {
    StatusRouteOnId(db, n, st, typed);
    UpdateAbsent(db, n, Str(StatusName(st)), !typed);
  }
}
