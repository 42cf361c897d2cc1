/**
  src/App.tsx: the browser app's own state, a user (or none) and the ids
  of the ships swiped right on, and the routes it renders from them.
*/
module ClientApp {
  import opened Base
  import opened Store
  import Js

  /** The client's `User`: ids are text on this side. */
  datatype ClientUser = ClientUser(
    id: string,
    name: string,
    email: string,
    kind: UserType,
    company: string,
    avatar: Option<string>,
    verified: bool)

  /** `mockUser` of the demo data. */
  const MockUser: ClientUser :=
    ClientUser("1", "Sarah Nielsen", "sarah@balticshipping.com", Shipowner, "Baltic Shipping Co.", None, true)

  datatype AppState = AppState(user: Option<ClientUser>, matches: seq<string>)

  /** `useState(null)` and `useState([])`. */
  const Initial: AppState := AppState(None, [])

  predicate NoDuplicates(s: seq<string>)
  {
    forall i, j :: 0 <= i < j < |s| ==> s[i] != s[j]
  }

  /** `handleLogin`: the demo user with the chosen type. */
  function HandleLogin(st: AppState, kind: UserType): (r: AppState)
    ensures r.user.Some? && r.user.value.kind == kind
    ensures r.user.value.(kind := MockUser.kind) == MockUser
    ensures r.matches == st.matches
  {
    st.(user := Some(MockUser.(kind := kind)))
  }

  /** `handleLogout`. */
  function HandleLogout(st: AppState): (r: AppState)
    ensures r == Initial
  {
    AppState(None, [])
  }

  /** `handleMatch`: appends an id the list does not hold yet. */
  function HandleMatch(st: AppState, shipId: string): (r: AppState)
    ensures r.user == st.user
    ensures shipId in st.matches ==> r.matches == st.matches
    ensures shipId !in st.matches ==> r.matches == st.matches + [shipId]
  {
    if shipId in st.matches then st else st.(matches := st.matches + [shipId])
  }

  /** A swipe keeps the list free of duplicates, and the list then holds
      exactly the ids it held and the new one. */
  lemma MatchKeepsDistinct(st: AppState, shipId: string)
    requires NoDuplicates(st.matches)
    ensures NoDuplicates(HandleMatch(st, shipId).matches)
    ensures forall x :: x in HandleMatch(st, shipId).matches <==> x in st.matches || x == shipId
  {
    var r := HandleMatch(st, shipId).matches;
    if shipId !in st.matches {
      forall i, j | 0 <= i < j < |r|
        ensures r[i] != r[j]
      {
        if j == |st.matches| {
          assert r[i] == st.matches[i];
        }
      }
    }
  }

  /** Swiping the same ship twice is swiping it once. */
  lemma MatchIdempotent(st: AppState, shipId: string)
    ensures HandleMatch(HandleMatch(st, shipId), shipId) == HandleMatch(st, shipId)
  {
  }

  /** The state after a run of swipes. */
  function Swipes(st: AppState, ids: seq<string>): (r: AppState)
    decreases |ids|
  {
    if ids == [] then st else Swipes(HandleMatch(st, ids[0]), ids[1..])
  }

  /** Any run of swipes from a duplicate-free list keeps it duplicate-free,
      holds every id swiped, keeps the earlier entries in place, and adds
      nothing else. */
  lemma {:induction false} SwipesDistinct(st: AppState, ids: seq<string>)
    requires NoDuplicates(st.matches)
    ensures var r := Swipes(st, ids).matches;
      && NoDuplicates(r)
      && |st.matches| <= |r|
      && r[..|st.matches|] == st.matches
      && (forall x :: x in r <==> x in st.matches || x in ids)
    decreases |ids|
  {
    if ids != [] {
      var next := HandleMatch(st, ids[0]);
      MatchKeepsDistinct(st, ids[0]);
      SwipesDistinct(next, ids[1..]);
      var r := Swipes(st, ids).matches;
      assert r[..|next.matches|] == next.matches;
      assert next.matches[..|st.matches|] == st.matches;
      assert r[..|st.matches|] == r[..|next.matches|][..|st.matches|];
      forall x
        ensures x in r <==> x in st.matches || x in ids
      {
        assert x in ids <==> x == ids[0] || x in ids[1..] by {
          assert ids == [ids[0]] + ids[1..];
        }
      }
    }
  }

  /** From a fresh start the swiped list never repeats an id. */
  lemma FreshSwipesDistinct(ids: seq<string>)
    ensures NoDuplicates(Swipes(Initial, ids).matches)
    ensures forall x :: x in Swipes(Initial, ids).matches <==> x in ids
  {
    SwipesDistinct(Initial, ids);
  }

  // ---------------------------------------------------------------------
  // Routes

  datatype Screen = LoginScreen | DashboardScreen | SwipeScreen

  /** What the router renders for a path: a screen, or a `<Navigate>`. */
  datatype Rendered = Show(screen: Screen) | Redirect(to: string)

  /** `<ProtectedRoute user={user}>`: the screen when a user is set, else
      a redirect to `/login`. */
  function Protected(st: AppState, screen: Screen): Rendered
  {
    if st.user.Some? then Show(screen) else Redirect("/login")
  }

  /** The path as route patterns see it: they match ASCII letters in
      either case and allow trailing slashes, so both are normalised away. */
  function RoutePath(path: string): string
  {
    Js.ToLower(StripSlashes(path))
  }

  /** `path` without its trailing slashes. */
  function StripSlashes(path: string): (r: string)
    ensures |r| <= |path| && r == path[..|r|]
    ensures r == [] || r[|r| - 1] != '/'
    ensures forall i :: |r| <= i < |path| ==> path[i] == '/'
  {
    if path != [] && path[|path| - 1] == '/' then StripSlashes(path[..|path| - 1]) else path
  }

  /** A path one of the three named routes matches. */
  predicate KnownRoute(path: string)
  {
    RoutePath(path) in {"/login", "/dashboard", "/swipe"}
  }

  /** The route table: `/login`, the two protected pages, and `*`. */
  function Route(st: AppState, path: string): (r: Rendered)
  {
    var p := RoutePath(path);
    if p == "/login" then Show(LoginScreen)
    else if p == "/dashboard" then Protected(st, DashboardScreen)
    else if p == "/swipe" then Protected(st, SwipeScreen)
    else Redirect(if st.user.Some? then "/dashboard" else "/login")
  }

  /** The paths the app itself navigates to are already normal. */
  lemma NormalPaths()
    ensures RoutePath("/login") == "/login"
    ensures RoutePath("/dashboard") == "/dashboard"
    ensures RoutePath("/swipe") == "/swipe"
  {
    assert Js.ToLower("/login") == "/login";
    assert Js.ToLower("/dashboard") == "/dashboard";
    assert Js.ToLower("/swipe") == "/swipe";
  }

  /** Where a path lands after following redirects. Two are always
      enough (`Landing`); a third is never reached, and the login screen
      stands in for it. */
  function Land(st: AppState, path: string): (screen: Screen)
  {
    NormalPaths();
    match Route(st, path)
    case Show(s) => s
    case Redirect(to) =>
      match Route(st, to)
      case Show(s) => s
      case Redirect(to') =>
        match Route(st, to')
        case Show(s) => s
        case Redirect(_) => LoginScreen
  }

  /** Every path lands on a screen; with no user set that screen is the
      login screen, and with one set a path no named route matches lands
      on the dashboard. */
  lemma Landing(st: AppState, path: string)
    ensures st.user.None? ==> Land(st, path) == LoginScreen
    ensures st.user.Some? && !KnownRoute(path) ==> Land(st, path) == DashboardScreen
    ensures Land(st, path) != LoginScreen ==> st.user.Some?
    ensures RoutePath(path) == "/login" ==> Land(st, path) == LoginScreen
  {
    NormalPaths();
  }

  /** Matching ignores trailing slashes and the case of ASCII letters:
      `/Swipe/` renders what `/swipe` does. */
  lemma RouteIgnoresCaseAndSlash(st: AppState, path: string)
    ensures Route(st, path + "/") == Route(st, path)
    ensures Route(st, Js.ToLower(path)) == Route(st, path)
  {
    assert (path + "/")[..|path|] == path;
    StripLower(path);
    LowerTwice(StripSlashes(path));
  }

  lemma {:induction false} StripLower(path: string)
    ensures StripSlashes(Js.ToLower(path)) == Js.ToLower(StripSlashes(path))
  {
    if path != [] && path[|path| - 1] == '/' {
      StripLower(path[..|path| - 1]);
      assert Js.ToLower(path)[..|path| - 1] == Js.ToLower(path[..|path| - 1]);
    }
  }

  lemma LowerTwice(s: string)
    ensures Js.ToLower(Js.ToLower(s)) == Js.ToLower(s)
  {
  }

  /** After logging in, the protected pages open; after logging out, none
      does and no match is remembered. */
  lemma LoginLogout(st: AppState, kind: UserType)
    ensures Land(HandleLogin(st, kind), "/swipe") == SwipeScreen
    ensures Land(HandleLogin(st, kind), "/dashboard") == DashboardScreen
    ensures Land(HandleLogout(st), "/swipe") == LoginScreen && HandleLogout(st).matches == []
  {
    NormalPaths();
  }
}
