/**
  src/contexts/UserContext.tsx: the signed-in user, the token, and the
  copy of the token kept in the browser's storage under
  `shipmatch-token`. Each operation is followed by the effects React runs
  for it, so a state here is one between renders.
*/
module ClientSession {
  import opened Base
  import ClientApp
  import Gate

  datatype Session = Session(user: Option<ClientApp.ClientUser>, token: Option<string>, stored: Option<string>)

  /** `if (token)`: `null` and the empty text are falsy. */
  predicate Present(t: Option<string>)
  {
    t.Some? && t.value != ""
  }

  /** `!!user && !!token`. */
  predicate IsAuthenticated(s: Session)
  {
    s.user.Some? && Present(s.token)
  }

  /** The persistence effect has run: storage holds the token when it is
      present and nothing otherwise. */
  predicate Persisted(s: Session)
  {
    s.stored == if Present(s.token) then s.token else None
  }

  /** The effect on `[token]`: `setItem` or `removeItem`. */
  function Persist(s: Session): (r: Session)
    ensures Persisted(r)
    ensures r.user == s.user && r.token == s.token
  {
    s.(stored := if Present(s.token) then s.token else None)
  }

  /** Mounting the provider: the token starts as what storage holds, and
      the effect then runs once. */
  function Mount(stored: Option<string>): (r: Session)
    ensures r.user.None? && r.token == stored
    ensures Persisted(r)
    ensures Present(stored) ==> r.stored == stored
  {
    Persist(Session(None, stored, stored))
  }

  /** `setToken`: React skips the effect when the value is the same. */
  function SetToken(s: Session, t: Option<string>): (r: Session)
    ensures r.token == t && r.user == s.user
    ensures t != s.token ==> Persisted(r)
    ensures t == s.token ==> r == s
  {
    if t == s.token then s else Persist(s.(token := t))
  }

  function SetUser(s: Session, u: Option<ClientApp.ClientUser>): (r: Session)
    ensures r.user == u && r.token == s.token && r.stored == s.stored
  {
    s.(user := u)
  }

  /** The answer `GET /api/auth/me` gave: ok with a user, not ok, or a
      failed request. */
  datatype MeOutcome = MeOk(user: ClientApp.ClientUser) | MeNotOk | MeThrew

  /** The header auto-login sends. */
  function AuthorizationHeader(savedToken: string): string
  {
    "Bearer " + savedToken
  }

  /** `autoLogin`: only with a saved token and no user; the outcome of the
      request is a parameter. */
  function AutoLogin(s: Session, outcome: MeOutcome): Session
  {
    var saved := s.stored;
    if !(Present(saved) && s.user.None?) then s
    else
      match outcome
      case MeOk(u) => SetToken(SetUser(s, Some(u)), saved)
      case _ => SetToken(s.(stored := None), None)
  }

  /** `logout`. */
  function Logout(s: Session): (r: Session)
    ensures r == Session(None, None, None)
  {
    SetToken(SetUser(s, None), None).(stored := None)
  }

  /** Auto-login does nothing without a saved token or with a user set;
      an ok answer signs in with the saved token; any other outcome drops
      the token from state and storage and leaves no one signed in. */
  lemma AutoLoginOutcomes(s: Session, outcome: MeOutcome)
    ensures !(Present(s.stored) && s.user.None?) ==> AutoLogin(s, outcome) == s
    ensures Present(s.stored) && s.user.None? && outcome.MeOk? ==>
      var r := AutoLogin(s, outcome);
      && r.user == Some(outcome.user) && r.token == s.stored && r.stored == s.stored
      && IsAuthenticated(r)
    ensures Present(s.stored) && s.user.None? && !outcome.MeOk? ==>
      var r := AutoLogin(s, outcome);
      && r.token.None? && r.stored.None? && r.user.None? && !IsAuthenticated(r)
  {
  }

  /** The header carries the saved token where the server's gate looks for
      it (a token has no spaces). */
  lemma HeaderCarriesToken(savedToken: string)
    requires ' ' !in savedToken
    ensures Gate.BearerToken(Some(AuthorizationHeader(savedToken))) == Some(savedToken)
  {
    Gate.BearerHeader(savedToken);
  }

  /** What the provider can be asked to do between two renders. */
  datatype Event =
    | DoSetUser(user: Option<ClientApp.ClientUser>)
    | DoSetToken(token: Option<string>)
    | DoAutoLogin(outcome: MeOutcome)
    | DoLogout

  function Step(s: Session, e: Event): Session
  {
    match e
    case DoSetUser(u) => SetUser(s, u)
    case DoSetToken(t) => SetToken(s, t)
    case DoAutoLogin(o) => AutoLogin(s, o)
    case DoLogout => Logout(s)
  }

  function Run(s: Session, events: seq<Event>): Session
    decreases |events|
  {
    if events == [] then s else Run(Step(s, events[0]), events[1..])
  }

  /** Every operation keeps storage in step with the token. */
  lemma StepPersisted(s: Session, e: Event)
    requires Persisted(s)
    ensures Persisted(Step(s, e))
  {
    if e.DoAutoLogin? && Present(s.stored) && s.user.None? && e.outcome.MeOk? {
      assert s.token == s.stored;
    }
  }

  /** From mounting on, whatever happens, storage holds the token exactly
      when it is present; so a signed-in session's token is the stored
      one. */
  lemma {:induction false} RunPersisted(stored: Option<string>, events: seq<Event>)
    ensures Persisted(Run(Mount(stored), events))
    ensures IsAuthenticated(Run(Mount(stored), events)) ==>
      Run(Mount(stored), events).stored == Run(Mount(stored), events).token
  {
    RunKeepsPersisted(Mount(stored), events);
  }

  lemma {:induction false} RunKeepsPersisted(s: Session, events: seq<Event>)
    requires Persisted(s)
    ensures Persisted(Run(s, events))
    decreases |events|
  {
    if events != [] {
      StepPersisted(s, events[0]);
      RunKeepsPersisted(Step(s, events[0]), events[1..]);
    }
  }
}
