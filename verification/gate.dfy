/**
  server/middleware/auth.ts: the token gate in front of every protected
  route, and the token it expects. The gate reads the second
  space-separated field of the `Authorization` header, verifies it, and
  looks the user up by the `userId` of the payload.
*/
module Gate {
  import opened Base
  import opened Js
  import opened Sql
  import opened Store
  import opened Crypto
  import opened Errors
  import opened Users

  const TokenRequiredMessage: string := "Access token required"
  const InvalidTokenMessage: string := "Invalid token"
  const ExpiredTokenMessage: string := "Invalid or expired token"

  /** What `authenticateToken` does with a request: answer it, or attach
      the user and call `next()` once. */
  datatype Decision = Deny(status: nat, error: string) | Pass(user: Account)

  /** `authHeader && authHeader.split(' ')[1]`: `None` is `undefined`; an
      empty header is itself the (falsy) result. */
  function BearerToken(header: Option<string>): Option<string>
  {
    match header
    case None => None
    case Some(h) =>
      if h == "" then Some("")
      else
        var parts := Split(h, ' ');
        if |parts| >= 2 then Some(parts[1]) else None
  }

  /** `decoded.userId`: a payload that is not an object has no fields. */
  function ClaimedUserId(payload: JsValue): JsValue
  {
    if payload.Obj? then Get(payload.fields, "userId") else Undefined
  }

  /** `authenticateToken`: 401 without a token; 403 when verification or
      the lookup throws; 401 when the payload names no user; otherwise the
      looked-up record is attached. */
  function Authenticate(db: Db, ts: TokenService, header: Option<string>): (d: Decision)
    ensures d.Deny? ==> d.status in {401, 403}
    ensures d.Pass? ==> d.user.Whole? && d.user.row in db.users
  {
    match BearerToken(header)
    case None => Deny(401, TokenRequiredMessage)
    case Some(token) =>
      if token == "" then Deny(401, TokenRequiredMessage)
      else
        match ts.verify(token)
        case None => Deny(403, ExpiredTokenMessage)
        case Some(payload) =>
          match FindByIdTs(db, ClaimedUserId(payload))
          case Err(_) => Deny(403, ExpiredTokenMessage)
          case Ok(None) => Deny(401, InvalidTokenMessage)
          case Ok(Some(row)) => Pass(Whole(row))
  }

  /** The token is the field after the first space, whatever word comes
      before it; a header without a space, or with nothing after it, has
      no token. */
  lemma TokenIsSecondField(scheme: string, token: string)
    requires ' ' !in scheme && ' ' !in token
    ensures BearerToken(Some(scheme + " " + token)) == Some(token)
    ensures scheme != "" ==> BearerToken(Some(scheme)) == None
  {
    SplitAt(scheme, token, ' ');
    SplitNone(token, ' ');
    assert scheme + " " + token == scheme + [' '] + token;
    if scheme != "" {
      SplitNone(scheme, ' ');
    }
  }

  /** `Bearer <token>` carries the token. */
  lemma BearerHeader(token: string)
    requires ' ' !in token
    ensures BearerToken(Some("Bearer " + token)) == Some(token)
  {
    assert "Bearer " + token == "Bearer" + " " + token;
    assert ' ' !in "Bearer";
    TokenIsSecondField("Bearer", token);
  }

  /** The scheme word is not checked. */
  lemma SchemeIgnored(db: Db, ts: TokenService, scheme: string, token: string)
    requires ' ' !in scheme && ' ' !in token
    ensures Authenticate(db, ts, Some(scheme + " " + token)) == Authenticate(db, ts, Some("Bearer " + token))
  {
    TokenIsSecondField(scheme, token);
    BearerHeader(token);
  }

  /** No header, an empty token, or a header without a second field: 401
      "Access token required", before any verification. */
  lemma MissingTokenRejected(db: Db, ts: TokenService, header: Option<string>)
    requires header.None? || BearerToken(header) == None || BearerToken(header) == Some("")
    ensures Authenticate(db, ts, header) == Deny(401, TokenRequiredMessage)
  {
  }

  /** A token that does not verify is answered 403, whatever the store
      holds. */
  lemma UnverifiedRejected(db: Db, ts: TokenService, token: string)
    requires ' ' !in token && token != "" && ts.verify(token).None?
    ensures Authenticate(db, ts, Some("Bearer " + token)) == Deny(403, ExpiredTokenMessage)
  {
    BearerHeader(token);
  }

  /** A token issued for a user id that the store does not hold is
      answered 401 "Invalid token". */
  lemma UnknownUserRejected(db: Db, ts: TokenService, userId: nat)
    requires SoundTokens(ts)
    requires db.online && InInt4(userId)
    requires forall i :: 0 <= i < |db.users| ==> db.users[i].id != userId
    ensures Authenticate(db, ts, Some("Bearer " + GenerateToken(ts, userId).token)) == Deny(401, InvalidTokenMessage)
  {
    var issued := GenerateToken(ts, userId);
    BearerHeader(issued.token);
    assert ClaimedUserId(PayloadOf(issued.claims)) == Number(Finite(userId));
  }

  /** Round trip: a token generated for a stored user passes the gate with
      that very user attached. */
  lemma IssuedTokenPasses(db: Db, ts: TokenService, u: UserRow)
    requires SoundTokens(ts)
    requires db.online && UsersValid(db) && u in db.users && InInt4(u.id)
    ensures Authenticate(db, ts, Some("Bearer " + GenerateToken(ts, u.id).token)) == Pass(Whole(u))
  {
    var issued := GenerateToken(ts, u.id);
    BearerHeader(issued.token);
    assert ClaimedUserId(PayloadOf(issued.claims)) == Number(Finite(u.id));
    FindUserUnique(db.users, u);
  }
}
