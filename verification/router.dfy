/**
 * The router: its constant route table, the root redirect, and the global
 * `beforeEach` guard. The guard reads only the stored `isLoggedIn` entry,
 * passed here as `isLoggedIn` (None when absent).
 */
module Router {
  import opened Api

  const HomePage := "HomePage"
  const LoginPage := "LoginPage"
  const GetCookie := "GetCookie"

  /** An entry of the table: the root redirect, or a named view. */
  datatype Route =
    | RootRedirect(path: string)
    | View(path: string, name: string, requiresAuth: bool)

  const Routes: seq<Route> := [
    RootRedirect("/"),
    View("/home", HomePage, true),
    View("/login", LoginPage, false),
    View("/get-cookie", GetCookie, false)
  ]

  /** What the guard sees of the destination: `to.name` and `to.meta.requiresAuth`. */
  datatype Location = Location(name: Option<string>, requiresAuth: bool)

  /** `next()` or `next({ name })`. */
  datatype Decision = Allow | RedirectTo(name: string)

  /** A stored `isLoggedIn` counts when it is present and non-empty. */
  predicate IsLoggedIn(isLoggedIn: Option<string>) {
    Truthy(isLoggedIn)
  }

  function LocationOf(route: Route): Location {
    match route
    case RootRedirect(_) => Location(None, false)
    case View(_, name, requiresAuth) => Location(Some(name), requiresAuth)
  }

  /** The view of the table with the given name, if any. */
  function Named(name: string): (r: Option<Location>)
    ensures r.Some? <==> exists i :: 0 <= i < |Routes| && Routes[i].View? && Routes[i].name == name
    ensures r.Some? ==> r.value.name == Some(name)
    ensures r.Some? ==> (exists i :: (0 <= i < |Routes| && Routes[i].View? && Routes[i].name == name &&
      r.value == LocationOf(Routes[i])))
  {
    if name == HomePage then Some(LocationOf(Routes[1]))
    else if name == LoginPage then Some(LocationOf(Routes[2]))
    else if name == GetCookie then Some(LocationOf(Routes[3]))
    else None
  }

  /** The path the root route sends to. */
  function RootTarget(isLoggedIn: Option<string>): (r: string)
    ensures IsLoggedIn(isLoggedIn) ==> r == "/home"
    ensures !IsLoggedIn(isLoggedIn) ==> r == "/login"
  {
    if IsLoggedIn(isLoggedIn) then "/home" else "/login"
  }

  /** The destination a path resolves to, following the root redirect. */
  function Resolve(path: string, isLoggedIn: Option<string>): (r: Option<Location>)
    ensures path == "/" ==> r.Some?
    ensures path == "/" ==>
      r.value == (if IsLoggedIn(isLoggedIn) then Named(HomePage).value else Named(LoginPage).value)
    ensures path != "/" ==> r == ResolveView(path)
  {
    if path == "/" then ResolveView(RootTarget(isLoggedIn))
    else ResolveView(path)
  }

  /** The view of the table at the given path, if any; the root is not a view. */
  function ResolveView(path: string): (r: Option<Location>)
    ensures r.Some? <==> exists i :: 0 <= i < |Routes| && Routes[i].View? && Routes[i].path == path
    ensures r.Some? ==> (exists i :: (0 <= i < |Routes| && Routes[i].View? && Routes[i].path == path &&
      r.value == LocationOf(Routes[i])))
  {
    if path == "/home" then Some(LocationOf(Routes[1]))
    else if path == "/login" then Some(LocationOf(Routes[2]))
    else if path == "/get-cookie" then Some(LocationOf(Routes[3]))
    else None
  }

  /**
   * The guard's decision: a destination that requires authentication while
   * logged out goes to the login page; the login page while logged in goes
   * home; everything else is allowed.
   */
  function Guard(to: Location, isLoggedIn: Option<string>): (d: Decision)
    ensures d == Allow <==>
      !(to.requiresAuth && !IsLoggedIn(isLoggedIn)) && !(to.name == Some(LoginPage) && IsLoggedIn(isLoggedIn))
    ensures d.RedirectTo? ==> d.name in {LoginPage, HomePage}
    ensures d == RedirectTo(HomePage) ==> IsLoggedIn(isLoggedIn)
    ensures to.requiresAuth && !IsLoggedIn(isLoggedIn) ==> d == RedirectTo(LoginPage)
    ensures to.name == Some(LoginPage) && IsLoggedIn(isLoggedIn) ==> d == RedirectTo(HomePage)
  {
    if to.requiresAuth && !IsLoggedIn(isLoggedIn) then RedirectTo(LoginPage)
    else if to.name == Some(LoginPage) && IsLoggedIn(isLoggedIn) then RedirectTo(HomePage)
    else Allow
  }

  /**
   * `router.beforeEach`: the callback as the sequence of its `next` calls.
   * Each early return leaves after exactly one call.
   */
  method BeforeEach(to: Location, isLoggedIn: Option<string>) returns (nextCalls: seq<Decision>)
    ensures |nextCalls| == 1
    ensures nextCalls[0] == Guard(to, isLoggedIn)
  {
    nextCalls := [];
    var loggedIn := IsLoggedIn(isLoggedIn);
    if to.requiresAuth && !loggedIn {
      nextCalls := nextCalls + [RedirectTo(LoginPage)];
      return;
    }
    if to.name == Some(LoginPage) && loggedIn {
      nextCalls := nextCalls + [RedirectTo(HomePage)];
      return;
    }
    nextCalls := nextCalls + [Allow];
  }

  /** Safety: nothing that requires authentication is let through while logged out. */
  lemma NoProtectedViewWhileLoggedOut(to: Location, isLoggedIn: Option<string>)
    requires to.requiresAuth && !IsLoggedIn(isLoggedIn)
    ensures Guard(to, isLoggedIn) == RedirectTo(LoginPage)
  {
  }

  /** A protected destination named like the login page still goes to the login page while logged out. */
  lemma AuthCheckTakesPrecedence(isLoggedIn: Option<string>)
    requires !IsLoggedIn(isLoggedIn)
    ensures Guard(Location(Some(LoginPage), true), isLoggedIn) == RedirectTo(LoginPage)
  {
  }

  /** In the table only the home view requires authentication. */
  lemma OnlyHomeRequiresAuth()
    ensures forall i :: 0 <= i < |Routes| && Routes[i].View? && Routes[i].requiresAuth ==>
      Routes[i].name == HomePage && Routes[i].path == "/home"
  {
  }

  /**
   * Convergence: wherever the guard redirects, the view it names exists and,
   * with the same session, the guard allows it.
   */
  lemma RedirectTargetIsAllowed(to: Location, isLoggedIn: Option<string>)
    requires Guard(to, isLoggedIn).RedirectTo?
    ensures Named(Guard(to, isLoggedIn).name).Some?
    ensures Guard(Named(Guard(to, isLoggedIn).name).value, isLoggedIn) == Allow
  {
    if to.requiresAuth && !IsLoggedIn(isLoggedIn) {
      assert Named(LoginPage) == Some(Location(Some(LoginPage), false));
    } else {
      assert Named(HomePage) == Some(Location(Some(HomePage), true));
    }
  }

  /**
   * Every path of the table, reached through the guard, settles after at most
   * one redirect on an allowed view.
   */
  lemma TablePathsSettle(path: string, isLoggedIn: Option<string>)
    requires Resolve(path, isLoggedIn).Some?
    ensures var to := Resolve(path, isLoggedIn).value;
      Guard(to, isLoggedIn) == Allow ||
      Guard(Named(Guard(to, isLoggedIn).name).value, isLoggedIn) == Allow
  {
    var to := Resolve(path, isLoggedIn).value;
    if Guard(to, isLoggedIn).RedirectTo? {
      RedirectTargetIsAllowed(to, isLoggedIn);
    }
  }

  /** The root goes home when logged in and to the login page otherwise, and the guard allows either. */
  lemma RootRedirectIsAllowed(isLoggedIn: Option<string>)
    ensures var to := Resolve("/", isLoggedIn).value;
      Guard(to, isLoggedIn) == Allow &&
      to.name == if IsLoggedIn(isLoggedIn) then Some(HomePage) else Some(LoginPage)
  {
  }

  /** Logged out, the login and cookie pages are allowed; logged in, the home page is. */
  lemma OpenViews(isLoggedIn: Option<string>)
    ensures !IsLoggedIn(isLoggedIn) ==>
      Guard(Resolve("/login", isLoggedIn).value, isLoggedIn) == Allow &&
      Guard(Resolve("/get-cookie", isLoggedIn).value, isLoggedIn) == Allow
    ensures IsLoggedIn(isLoggedIn) ==>
      Guard(Resolve("/home", isLoggedIn).value, isLoggedIn) == Allow &&
      Guard(Resolve("/get-cookie", isLoggedIn).value, isLoggedIn) == Allow
  {
  }

  /** An empty stored value counts as logged out, any other stored value as logged in. */
  lemma LoggedInIsTruthiness(v: string)
    ensures IsLoggedIn(Some(v)) <==> v != ""
    ensures !IsLoggedIn(None)
  {
  }
}
