/**
  What the model layer throws. The routes tell these apart the way the
  source does, by comparing `error.message` with a literal, so each thrown
  value has its message.
*/
module Errors {
  import opened Base
  import opened Sql
  import opened Crypto

  datatype Thrown =
    | MatchAlreadyExists
    | EmailAlreadyExists
    | DashboardFailed
    | Database(error: SqlError)
    | Bcrypt(reason: BcryptError)
    | JsonSyntax
    | NotAFunction

  /** What every statement throws when the database cannot be reached. */
  const StoreDown: Thrown := Database(ConnectionFailure)

  /** A statement's error, thrown. */
  function Lift<T>(r: Result<T, SqlError>): (t: Result<T, Thrown>)
    ensures r.Ok? <==> t.Ok?
    ensures r.Ok? ==> t.value == r.value
    ensures r.Err? ==> t.error == Database(r.error)
  {
    match r
    case Ok(x) => Ok(x)
    case Err(e) => Err(Database(e))
  }

  const MatchExistsMessage: string := "Match already exists"
  const EmailExistsMessage: string := "Email already exists"
  const DashboardFailedMessage: string := "Failed to fetch dashboard data"

  /** `error.message`. The library errors' wording is the libraries' own;
      only its difference from the three domain messages matters. */
  function Message(t: Thrown): string
  {
    match t
    case MatchAlreadyExists => MatchExistsMessage
    case EmailAlreadyExists => EmailExistsMessage
    case DashboardFailed => DashboardFailedMessage
    case Database(e) => "database error " + Code(e)
    case Bcrypt(e) => BcryptMessage(e)
    case JsonSyntax => "Unexpected end of JSON input"
    case NotAFunction => "is not a function"
  }

  /** The leading words of bcryptjs's error messages. */
  function BcryptMessage(e: BcryptError): string
  {
    match e
    case IllegalArguments => "Illegal arguments"
    case InvalidSaltVersion => "Invalid salt version"
    case InvalidSaltRevision => "Invalid salt revision"
    case MissingSaltRounds => "Missing salt rounds"
    case IllegalRounds => "Illegal number of rounds (4-31)"
    case IllegalSaltLength => "Illegal salt length"
  }

  /** Message comparison identifies the domain errors exactly. */
  lemma MessagesIdentify(t: Thrown)
    ensures Message(t) == MatchExistsMessage <==> t == MatchAlreadyExists
    ensures Message(t) == EmailExistsMessage <==> t == EmailAlreadyExists
    ensures Message(t) == DashboardFailedMessage <==> t == DashboardFailed
  {
    if t.Database? {
      var m := Message(t);
      assert m[0] == 'd';
    }
  }
}
