/**
  server/routes/auth.js and server/routes/auth.ts: registration, login,
  the current user, profile update, the shipowner dashboard and logout.
  The two drafts validate alike; they differ in the user model they call
  and in what they do with an unexpected error (500 here, `next(error)`
  there).
*/
module AuthRoutes {
  import opened Base
  import opened Js
  import opened Sql
  import opened Store
  import opened Crypto
  import opened Errors
  import opened Users
  import opened Http
  import Gate
  import Ships
  import Matches

  const FieldsRequiredMessage: string := "Name, email, password, and type are required"
  const TypeInvalidMessage: string := "Type must be either charterer or shipowner"
  const PasswordShortMessage: string := "Password must be at least 6 characters long"
  const LoginFieldsMessage: string := "Email and password are required"
  const InvalidCredentialsMessage: string := "Invalid credentials"
  const NameRequiredMessage: string := "Name is required"
  const CreatedMessage: string := "User created successfully"
  const LoginMessage: string := "Login successful"
  const ProfileMessage: string := "Profile updated successfully"
  const LogoutMessage: string := "Logout successful"

  /** The minimum password length. */
  const MinPasswordLength: nat := 6

  /** The JSON bodies these routes send. */
  datatype AuthBody =
    | Failure(error: string)
    | Registered(message: string, user: PublicUser, token: string)
    | LoggedIn(message: string, user: PublicUser, token: string)
    | Me(current: Account)
    | ProfileUpdated(message: string, updated: Option<PublicUser>)
    | Counts(dashboard: Dashboard)
    | LoggedOut(message: string)

  type AuthReply = Reply<AuthBody>

  // ---------------------------------------------------------------------
  // register

  /** `['charterer', 'shipowner'].includes(type)`: strict equality. */
  predicate IsUserType(v: JsValue)
  {
    v == Str("charterer") || v == Str("shipowner")
  }

  /** `password.length < 6`. A string's length counts its UTF-16 code
      units and an array's its items; an object may carry a `length` of
      any type, which the comparison converts to a number; on any other
      value the property is `undefined` and the comparison is false. */
  predicate TooShort(password: JsValue)
  {
    match password
    case Str(s) => Utf16Length(s) < MinPasswordLength
    case Arr(items) => |items| < MinPasswordLength
    case Obj(fields) => LessThan(ToNumeric(Get(fields, "length")), MinPasswordLength)
    case _ => false
  }

  /** A string of characters from the Basic Multilingual Plane is short
      when it has fewer than six of them; three characters from outside it
      are six code units, which is long enough. */
  lemma TooShortText(s: string)
    ensures (forall i :: 0 <= i < |s| ==> s[i] as int < 0x10000) ==> (TooShort(Str(s)) <==> |s| < MinPasswordLength)
    ensures |s| == 3 && (forall i :: 0 <= i < |s| ==> s[i] as int >= 0x10000) ==> !TooShort(Str(s))
  {
  }

  /** An object's `length` is converted before the comparison: a number
      and its decimal text count alike, and `true` is 1. */
  lemma TooShortObjectLength(n: int)
    ensures TooShort(Obj(map["length" := Number(Finite(n))])) <==> n < MinPasswordLength
    ensures TooShort(Obj(map["length" := Str(IntToDecimal(n))])) <==> n < MinPasswordLength
    ensures TooShort(Obj(map["length" := Bool(true)]))
  {
    ObjectLength(Number(Finite(n)));
    ObjectLength(Str(IntToDecimal(n)));
    ObjectLength(Bool(true));
    ToNumberDecimal(n);
  }

  lemma ObjectLength(v: JsValue)
    ensures TooShort(Obj(map["length" := v])) <==> LessThan(ToNumeric(v), MinPasswordLength)
  {
    assert Get(map["length" := v], "length") == v;
  }

  /** The first failing validation of a registration body, if any. */
  function RegisterRejection(body: map<string, JsValue>): Option<string>
  {
    var name := Get(body, "name");
    var email := Get(body, "email");
    var password := Get(body, "password");
    var kind := Get(body, "type");
    if !Truthy(name) || !Truthy(email) || !Truthy(password) || !Truthy(kind) then Some(FieldsRequiredMessage)
    else if !IsUserType(kind) then Some(TypeInvalidMessage)
    else if TooShort(password) then Some(PasswordShortMessage)
    else None
  }

  /** The argument of `User.create`: the email lower-cased (a non-string
      has no `toLowerCase`), a falsy company replaced by `''`. */
  function NewUserOf(body: map<string, JsValue>): (r: Result<NewUser, Thrown>)
    ensures r.Ok? <==> Get(body, "email").Str?
    ensures r.Err? ==> r.error == NotAFunction
    ensures r.Ok? ==>
      && r.value.email == Str(ToLower(Get(body, "email").s))
      && r.value.company == Or(Get(body, "company"), Str(""))
      && r.value.name == Get(body, "name") && r.value.password == Get(body, "password")
      && r.value.kind == Get(body, "type")
  {
    var email := Get(body, "email");
    if !email.Str? then Err(NotAFunction)
    else Ok(NewUser(Get(body, "name"), Str(ToLower(email.s)), Get(body, "password"), Get(body, "type"),
                    Or(Get(body, "company"), Str(""))))
  }

  /** The JavaScript catch: "Email already exists" is 409, anything else
      500. */
  function CaughtJs(e: Thrown): AuthReply
  {
    if Message(e) == EmailExistsMessage then Json(409, Failure(Message(e)))
    else Json(500, Failure(InternalErrorMessage))
  }

  /** The TypeScript catch: "Email already exists" is 409, anything else
      goes to `next`. */
  function CaughtTs(e: Thrown): AuthReply
  {
    if Message(e) == EmailExistsMessage then Json(409, Failure(Message(e)))
    else Forward(e)
  }

  /** POST `/register` (JavaScript). */
  function RegisterJs(db: Db, json: JsonCodec, ts: TokenService, body: map<string, JsValue>): (Db, AuthReply)
  {
    match RegisterRejection(body)
    case Some(m) => (db, Json(400, Failure(m)))
    case None =>
      match NewUserOf(body)
      case Err(e) => (db, CaughtJs(e))
      case Ok(u) =>
        match CreateJs(db, json, u)
        case Err(e) => (db, CaughtJs(e))
        case Ok((db', user)) => (db', Json(201, Registered(CreatedMessage, user, GenerateToken(ts, user.id).token)))
  }

  /** POST `/register` (TypeScript): the whole row comes back from the
      model and its password is stripped here. */
  function RegisterTs(db: Db, json: JsonCodec, ts: TokenService, body: map<string, JsValue>): (Db, AuthReply)
  {
    match RegisterRejection(body)
    case Some(m) => (db, Json(400, Failure(m)))
    case None =>
      match NewUserOf(body)
      case Err(e) => (db, CaughtTs(e))
      case Ok(u) =>
        match CreateTs(db, json, u)
        case Err(e) => (db, CaughtTs(e))
        case Ok((db', row)) => (db', Json(201, Registered(CreatedMessage, Stripped(row), GenerateToken(ts, row.id).token)))
  }

  /** Validation runs in a fixed order, the first failure decides the
      message, and a rejected body changes nothing; both drafts alike. */
  lemma RegisterValidationOrder(db: Db, json: JsonCodec, ts: TokenService, body: map<string, JsValue>)
    ensures var (name, email, password, kind) := (Get(body, "name"), Get(body, "email"), Get(body, "password"), Get(body, "type"));
      && (!Truthy(name) || !Truthy(email) || !Truthy(password) || !Truthy(kind) ==>
            RegisterJs(db, json, ts, body) == (db, Json(400, Failure(FieldsRequiredMessage)))
            && RegisterTs(db, json, ts, body) == (db, Json(400, Failure(FieldsRequiredMessage))))
      && (Truthy(name) && Truthy(email) && Truthy(password) && Truthy(kind) && !IsUserType(kind) ==>
            RegisterJs(db, json, ts, body) == (db, Json(400, Failure(TypeInvalidMessage)))
            && RegisterTs(db, json, ts, body) == (db, Json(400, Failure(TypeInvalidMessage))))
      && (Truthy(name) && Truthy(email) && Truthy(password) && IsUserType(kind) && TooShort(password) ==>
            RegisterJs(db, json, ts, body) == (db, Json(400, Failure(PasswordShortMessage)))
            && RegisterTs(db, json, ts, body) == (db, Json(400, Failure(PasswordShortMessage))))
  {
  }

  /** A body that passes validation, with a string email, reaches the
      model with the email lower-cased and the company defaulted. */
  lemma RegisterStoresLowercase(db: Db, json: JsonCodec, ts: TokenService, body: map<string, JsValue>)
    requires RegisterJs(db, json, ts, body).1.Json? && RegisterJs(db, json, ts, body).1.status == 201
    ensures var db' := RegisterJs(db, json, ts, body).0;
      && |db'.users| == |db.users| + 1
      && var row := db'.users[|db.users|];
         && Get(body, "email").Str? && row.email == ToLower(Get(body, "email").s) && IsLower(row.email)
         && TextParam(json, Or(Get(body, "company"), Str(""))) == row.company
         && (!Truthy(Get(body, "company")) ==> row.company == Some(""))
         && row.password.Hashed? && !row.verified
  {
    var u := NewUserOf(body).value;
    CreateJsStoresDigest(db, json, u);
    ToLowerLowers(Get(body, "email").s);
  }

  /** Registering a taken email: 409 "Email already exists" in the
      JavaScript draft, store unchanged. */
  lemma RegisterDuplicateJs(db: Db, json: JsonCodec, ts: TokenService, body: map<string, JsValue>, taken: UserRow)
    requires db.online && RegisterRejection(body).None?
    requires Get(body, "email").Str? && Get(body, "password").Str? && !Get(body, "name").Arr? && !Get(body, "name").Obj?
    requires taken in db.users && taken.email == ToLower(Get(body, "email").s)
    ensures RegisterJs(db, json, ts, body) == (db, Json(409, Failure(EmailExistsMessage)))
  {
    var u := NewUserOf(body).value;
    assert TextParam(json, u.email) == Some(taken.email);
    assert UserTypeOf(TextParam(json, u.kind).value).Some?;
    CreateJsDuplicate(db, json, u);
    MessagesIdentify(EmailAlreadyExists);
  }

  /** In the TypeScript draft the same request never reaches the 409
      branch: the model does not translate the unique violation, so the
      error goes to `next` (a 500). */
  lemma RegisterDuplicateTs(db: Db, json: JsonCodec, ts: TokenService, body: map<string, JsValue>, taken: UserRow)
    requires db.online && RegisterRejection(body).None?
    requires Get(body, "email").Str? && Get(body, "password").Str? && !Get(body, "name").Arr? && !Get(body, "name").Obj?
    requires taken in db.users && taken.email == ToLower(Get(body, "email").s)
    ensures RegisterTs(db, json, ts, body) == (db, Forward(Database(UniqueViolation)))
  {
    var u := NewUserOf(body).value;
    assert TextParam(json, u.email) == Some(taken.email);
    assert UserTypeOf(TextParam(json, u.kind).value).Some?;
    CreateTsStoresCleartext(db, json, u, u.password.s);
    MessagesIdentify(Database(UniqueViolation));
  }

  /** The TypeScript register never answers 409. */
  lemma RegisterTsNever409(db: Db, json: JsonCodec, ts: TokenService, body: map<string, JsValue>)
    ensures !(RegisterTs(db, json, ts, body).1.Json? && RegisterTs(db, json, ts, body).1.status == 409)
  {
    match NewUserOf(body)
    case Err(e) => MessagesIdentify(e);
    case Ok(u) =>
      match CreateTs(db, json, u)
      case Err(e) => MessagesIdentify(e);
      case Ok(_) =>
  }

  // ---------------------------------------------------------------------
  // login

  /** The login steps both drafts share; an exception is returned as the
      error, for each draft's catch to handle. */
  function LoginCore(db: Db, ts: TokenService, body: map<string, JsValue>): Result<AuthReply, Thrown>
  {
    var email := Get(body, "email");
    var password := Get(body, "password");
    if !Truthy(email) || !Truthy(password) then Ok(Json(400, Failure(LoginFieldsMessage)))
    else if !email.Str? then Err(NotAFunction)
    else
      var found :- FindByEmail(db, ToLower(email.s));
      match found
      case None => Ok(Json(401, Failure(InvalidCredentialsMessage)))
      case Some(user) =>
        match BcryptCompare(password, user.password)
        case Err(e) => Err(Bcrypt(e))
        case Ok(false) => Ok(Json(401, Failure(InvalidCredentialsMessage)))
        case Ok(true) => Ok(Json(200, LoggedIn(LoginMessage, Stripped(user), GenerateToken(ts, user.id).token)))
  }

  /** POST `/login` (JavaScript): an exception is a 500. */
  function LoginJs(db: Db, ts: TokenService, body: map<string, JsValue>): AuthReply
  {
    match LoginCore(db, ts, body)
    case Ok(reply) => reply
    case Err(_) => Json(500, Failure(InternalErrorMessage))
  }

  /** POST `/login` (TypeScript): an exception goes to `next`. */
  function LoginTs(db: Db, ts: TokenService, body: map<string, JsValue>): AuthReply
  {
    match LoginCore(db, ts, body)
    case Ok(reply) => reply
    case Err(e) => Forward(e)
  }

  /** An unknown email and a wrong password get the same answer, and a
      successful login returns the stored user without the password and a
      token for that user's id. When bcrypt throws, the JavaScript draft
      answers 500 and the TypeScript draft forwards the error. */
  lemma LoginOutcomes(db: Db, ts: TokenService, email: string, password: string)
    requires db.online && email != "" && password != ""
    ensures var body := map["email" := Str(email), "password" := Str(password)];
      var js := LoginJs(db, ts, body);
      var tsr := LoginTs(db, ts, body);
      && (FindUserByEmail(db.users, ToLower(email)).None? ==> js == tsr == Json(401, Failure(InvalidCredentialsMessage)))
      && (FindUserByEmail(db.users, ToLower(email)).Some? ==>
            var user := FindUserByEmail(db.users, ToLower(email)).value;
            var compared := BcryptCompare(Str(password), user.password);
            && (compared == Ok(true) ==>
                  js == tsr == Json(200, LoggedIn(LoginMessage, Stripped(user), GenerateToken(ts, user.id).token)))
            && (compared == Ok(false) ==> js == tsr == Json(401, Failure(InvalidCredentialsMessage)))
            && (compared.Err? ==>
                  js == Json(500, Failure(InternalErrorMessage)) && tsr == Forward(Bcrypt(compared.error))))
  {
  }

  /** Logging in as a user just appended finds that user. */
  lemma LoginFindsAppended(db: Db, ts: TokenService, row: UserRow, email: string, password: string)
    requires db.online && email != "" && password != ""
    requires row.email == ToLower(email) && FindUserByEmail(db.users, row.email).None?
    ensures var login := map["email" := Str(email), "password" := Str(password)];
      var js := LoginJs(WithUser(db, row), ts, login);
      var tsr := LoginTs(WithUser(db, row), ts, login);
      var compared := BcryptCompare(Str(password), row.password);
      && (compared == Ok(true) ==>
            js == tsr == Json(200, LoggedIn(LoginMessage, Stripped(row), GenerateToken(ts, row.id).token)))
      && (compared == Ok(false) ==> js == tsr == Json(401, Failure(InvalidCredentialsMessage)))
      && (compared.Err? ==> js == Json(500, Failure(InternalErrorMessage)) && tsr == Forward(Bcrypt(compared.error)))
  {
    FindUserByEmailAppended(db.users, row);
    LoginOutcomes(WithUser(db, row), ts, email, password);
  }

  /** Round trip (JavaScript): after registering, logging in with the same
      email and password succeeds and returns the registered user. */
  lemma RegisterThenLoginJs(db: Db, json: JsonCodec, ts: TokenService, body: map<string, JsValue>)
    requires RegisterJs(db, json, ts, body).1.Json? && RegisterJs(db, json, ts, body).1.status == 201
    ensures var db' := RegisterJs(db, json, ts, body).0;
      var login := map["email" := Get(body, "email"), "password" := Get(body, "password")];
      && LoginJs(db', ts, login).Json? && LoginJs(db', ts, login).status == 200
      && LoginJs(db', ts, login).body.user.id == db.next.users
  {
    var u := NewUserOf(body).value;
    CreateJsStoresDigest(db, json, u);
    var row := RegisterJs(db, json, ts, body).0.users[|db.users|];
    ToLowerLowers(Get(body, "email").s);
    HashThenCompare(u.password.s, u.password.s);
    LoginFindsAppended(db, ts, row, Get(body, "email").s, u.password.s);
  }

  /** The flaw of the TypeScript drafts: register stores the password
      unhashed, login compares it as a bcrypt digest, so a freshly
      registered user can never log in. Login answers 401, or, for a
      password of digest length whose salt part bcrypt cannot read, the
      compare throws and the error is forwarded. */
  lemma RegisterThenLoginTs(db: Db, json: JsonCodec, ts: TokenService, body: map<string, JsValue>)
    requires Get(body, "password").Str?
    requires RegisterTs(db, json, ts, body).1.Json? && RegisterTs(db, json, ts, body).1.status == 201
    ensures var db' := RegisterTs(db, json, ts, body).0;
      var login := map["email" := Get(body, "email"), "password" := Get(body, "password")];
      var p := Get(body, "password").s;
      && (!SaltRejects(p) ==> LoginTs(db', ts, login) == Json(401, Failure(InvalidCredentialsMessage)))
      && (SaltRejects(p) ==> LoginTs(db', ts, login) == Forward(Bcrypt(SaltCheck(Utf16(p)).value)))
  {
    var u := NewUserOf(body).value;
    var (db', row) := CreateTs(db, json, u).value;
    CreateTsStoresCleartext(db, json, u, u.password.s);
    HashThenCompare(u.password.s, u.password.s);
    ToLowerLowers(Get(body, "email").s);
    LoginFindsAppended(db, ts, row, Get(body, "email").s, u.password.s);
  }

  /** POST `/register` (TypeScript) over the corrected model create. */
  function RegisterTsFixed(db: Db, json: JsonCodec, ts: TokenService, body: map<string, JsValue>): (Db, AuthReply)
  {
    match RegisterRejection(body)
    case Some(m) => (db, Json(400, Failure(m)))
    case None =>
      match NewUserOf(body)
      case Err(e) => (db, CaughtTs(e))
      case Ok(u) =>
        match CreateTsFixed(db, json, u)
        case Err(e) => (db, CaughtTs(e))
        case Ok((db', row)) => (db', Json(201, Registered(CreatedMessage, Stripped(row), GenerateToken(ts, row.id).token)))
  }

  /** With the corrected create, a registered user can log in. */
  lemma RegisterThenLoginTsFixed(db: Db, json: JsonCodec, ts: TokenService, body: map<string, JsValue>)
    requires RegisterTsFixed(db, json, ts, body).1.Json? && RegisterTsFixed(db, json, ts, body).1.status == 201
    ensures var db' := RegisterTsFixed(db, json, ts, body).0;
      var login := map["email" := Get(body, "email"), "password" := Get(body, "password")];
      && LoginTs(db', ts, login).Json? && LoginTs(db', ts, login).status == 200
      && LoginTs(db', ts, login).body.user.id == db.next.users
  {
    var u := NewUserOf(body).value;
    var (db', row) := CreateTsFixed(db, json, u).value;
    CreateTsFixedLikeJs(db, json, u);
    CreateJsStoresDigest(db, json, u);
    ToLowerLowers(Get(body, "email").s);
    HashThenCompare(u.password.s, u.password.s);
    LoginFindsAppended(db, ts, row, Get(body, "email").s, u.password.s);
  }

  /** With the corrected create, a taken email is answered 409. */
  lemma RegisterDuplicateTsFixed(db: Db, json: JsonCodec, ts: TokenService, body: map<string, JsValue>, taken: UserRow)
    requires db.online && RegisterRejection(body).None?
    requires Get(body, "email").Str? && Get(body, "password").Str? && !Get(body, "name").Arr? && !Get(body, "name").Obj?
    requires taken in db.users && taken.email == ToLower(Get(body, "email").s)
    ensures RegisterTsFixed(db, json, ts, body) == (db, Json(409, Failure(EmailExistsMessage)))
  {
    var u := NewUserOf(body).value;
    assert TextParam(json, u.email) == Some(taken.email);
    assert UserTypeOf(TextParam(json, u.kind).value).Some?;
    CreateJsDuplicate(db, json, u);
    CreateTsFixedLikeJs(db, json, u);
    MessagesIdentify(EmailAlreadyExists);
  }

  // ---------------------------------------------------------------------
  // The current user, profile, dashboard, logout

  /** GET `/me` (JavaScript): the attached user. */
  function MeJs(user: Account): AuthReply
  {
    Json(200, Me(user))
  }

  /** GET `/me` (TypeScript): 401 without an attached user, else the
      attached user as the gate looked it up. */
  function MeTs(user: Option<Account>): (reply: AuthReply)
    ensures reply.Json?
    ensures user.None? <==> reply.status == 401
    ensures user.Some? ==> reply.body == Me(user.value)
  {
    match user
    case None => Json(401, Failure(UnauthorizedMessage))
    case Some(u) => Json(200, Me(u))
  }

  /** GET `/me` (TypeScript) with the password stripped as register and
      login strip it. */
  function MeTsFixed(user: Option<Account>): AuthReply
  {
    match user
    case None => Json(401, Failure(UnauthorizedMessage))
    case Some(Whole(row)) => Json(200, Me(Public(Stripped(row))))
    case Some(Public(u)) => Json(200, Me(Public(u)))
  }

  /** The TypeScript gate attaches the whole row, so `/me` sends the
      stored password column back to the client. */
  lemma MeTsLeaksPassword(db: Db, ts: TokenService, header: Option<string>)
    requires Gate.Authenticate(db, ts, header).Pass?
    ensures var user := Gate.Authenticate(db, ts, header).user;
      MeTs(Some(user)).body.current.HasPassword()
      && MeTs(Some(user)).body.current.row.password == user.row.password
  {
  }

  /** The corrected `/me` never carries a password, and describes the same
      user. */
  lemma MeTsFixedHidesPassword(user: Option<Account>)
    ensures user.None? ==> MeTsFixed(user) == MeTs(user)
    ensures user.Some? ==> MeTsFixed(user).body.Me? && !MeTsFixed(user).body.current.HasPassword()
    ensures user.Some? ==>
      && MeTsFixed(user).body.current.Id() == user.value.Id()
      && MeTsFixed(user).body.current.Name() == user.value.Name()
      && MeTsFixed(user).body.current.Kind() == user.value.Kind()
  {
  }

  /** PUT `/profile` (JavaScript): a name is required; only name and
      company (default `''`) are passed to the model. */
  function Profile(db: Db, json: JsonCodec, user: Account, body: map<string, JsValue>): (Db, AuthReply)
  {
    var name := Get(body, "name");
    if !Truthy(name) then (db, Json(400, Failure(NameRequiredMessage)))
    else
      match UpdateProfile(db, json, user.Id(), name, Or(Get(body, "company"), Str("")))
      case Err(_) => (db, Json(500, Failure(InternalErrorMessage)))
      case Ok((db', updated)) => (db', Json(200, ProfileUpdated(ProfileMessage, updated)))
  }

  /** A missing name is a 400 that changes nothing; otherwise only the
      caller's name, company and `updated_at` can change. */
  lemma ProfileChangesOnlyNameAndCompany(db: Db, json: JsonCodec, user: Account, body: map<string, JsValue>)
    ensures !Truthy(Get(body, "name")) ==> Profile(db, json, user, body) == (db, Json(400, Failure(NameRequiredMessage)))
    ensures var (db', _) := Profile(db, json, user, body);
      && db'.ships == db.ships && db'.matches == db.matches && |db'.users| == |db.users|
      && forall i :: 0 <= i < |db.users| ==>
           if db.users[i].id == user.Id() then
             db'.users[i].(name := db.users[i].name, company := db.users[i].company, updatedAt := db.users[i].updatedAt) == db.users[i]
           else db'.users[i] == db.users[i]
    ensures var (db', _) := Profile(db, json, user, body);
      db' != db ==> forall i :: 0 <= i < |db.users| && db.users[i].id == user.Id() ==>
        db'.users[i].company == TextParam(json, Or(Get(body, "company"), Str("")))
  {
    if Truthy(Get(body, "name")) {
      var r := UpdateProfile(db, json, user.Id(), Get(body, "name"), Or(Get(body, "company"), Str("")));
      if r.Ok? {
        UpdateProfileChangesOnly(db, json, user.Id(), Get(body, "name"), Or(Get(body, "company"), Str("")));
      }
    }
  }

  /** GET `/dashboard/shipowner` (JavaScript): the counts, or 500 with the
      model's message. */
  function DashboardJs(db: Db, user: Account): (reply: AuthReply)
    ensures reply.Json?
  {
    match GetDashboard(db, user.Id())
    case Ok(d) => Json(200, Counts(d))
    case Err(e) => Json(500, Failure(Message(e)))
  }

  /** GET `/dashboard/shipowner` (TypeScript): 401 without a user, the
      counts, or the error to `next`. */
  function DashboardTs(db: Db, user: Option<Account>): AuthReply
  {
    match user
    case None => Json(401, Failure(UnauthorizedMessage))
    case Some(u) =>
      match GetDashboard(db, u.Id())
      case Ok(d) => Json(200, Counts(d))
      case Err(e) => Forward(e)
  }

  /** The dashboard answers with the caller's two counts, or with "Failed
      to fetch dashboard data"; the role is not checked. */
  lemma DashboardOutcomes(db: Db, user: Account)
    ensures db.online && InInt4(user.Id()) ==>
      && Ships.FindByOwnerIdTs(db, user.Id()).Ok? && Matches.FindByUserIdTs(db, user.Id()).Ok?
      && DashboardJs(db, user) == Json(200, Counts(Dashboard(
           Finite(|Ships.FindByOwnerIdTs(db, user.Id()).value|),
           Finite(|Matches.FindByUserIdTs(db, user.Id()).value|))))
      && DashboardTs(db, Some(user)) == DashboardJs(db, user)
    ensures !(db.online && InInt4(user.Id())) ==>
      && DashboardJs(db, user) == Json(500, Failure(DashboardFailedMessage))
      && DashboardTs(db, Some(user)) == Forward(DashboardFailed)
  {
    DashboardCounts(db, user.Id());
  }

  /** POST `/logout` (TypeScript): always a success, nothing changes. */
  function Logout(db: Db): (r: (Db, AuthReply))
    ensures r.0 == db
    ensures r.1 == Json(200, LoggedOut(LogoutMessage))
  {
    (db, Json(200, LoggedOut(LogoutMessage)))
  }
}
