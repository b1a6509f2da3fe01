/** The route table and the navigation guard that runs before every route
    change (src/router/index.ts). */
module Router {
  import opened Wrappers
  import SessionStore

  /** A route table entry: a named page with its `requiresAuth` flag, or a
      path that redirects to the page of the given name. */
  datatype RouteRecord =
    | Page(name: string, path: string, requiresAuth: bool)
    | Redirect(path: string, toName: string)

  /** The guard's view of a resolved target route: its name, if it has one,
      and `meta.requiresAuth` (false when the route has no such flag). */
  datatype Target = Target(name: Option<string>, requiresAuth: bool)

  /** What the guard tells the router: go on, or go to `home` or `login`. */
  datatype Decision = Proceed | RedirectHome | RedirectLogin

  const HomeName := "home"
  const LoginName := "login"

  /** The routes in declaration order; the catch-all is last. */
  const Routes: seq<RouteRecord> := [
    Page(HomeName, "/", false),
    Page(LoginName, "/login", false),
    Page("aiAssistant", "/ai-assistant", true),
    Page("checkIn", "/check-in", true),
    Page("classDetail", "/class/:id", true),
    Page("dangerBehaviors", "/danger-behaviors", true),
    Page("profile", "/profile", true),
    Redirect("/:pathMatch(.*)*", HomeName)
  ]

  /** The first page of `rs` with the given name, as a redirect by name finds it. */
  function FindRoute(rs: seq<RouteRecord>, name: string): (r: Option<RouteRecord>)
    ensures r.Some? ==> r.value in rs && r.value.Page? && r.value.name == name
    ensures r.None? ==> forall i :: 0 <= i < |rs| && rs[i].Page? ==> rs[i].name != name
    ensures r.Some? ==>
              exists i :: 0 <= i < |rs| && rs[i] == r.value && forall j :: 0 <= j < i && rs[j].Page? ==> rs[j].name != name
    decreases |rs|
  {
    if rs == [] then None
    else if rs[0].Page? && rs[0].name == name then Some(rs[0])
    else FindRoute(rs[1..], name)
  }

  /** The target a page presents to the guard. */
  function TargetOf(r: RouteRecord): (t: Target)
    requires r.Page?
    ensures t.name == Some(r.name) && t.requiresAuth == r.requiresAuth
  {
    Target(Some(r.name), r.requiresAuth)
  }

  /** The name of the page a decision redirects to, if it redirects. */
  function RedirectName(d: Decision): (n: Option<string>)
    ensures d.Proceed? <==> n.None?
    ensures d.RedirectHome? ==> n == Some(HomeName)
    ensures d.RedirectLogin? ==> n == Some(LoginName)
  {
    match d
    case Proceed => None
    case RedirectHome => Some(HomeName)
    case RedirectLogin => Some(LoginName)
  }

  /** `beforeEach`: a logged-in user heading for `login` goes home; a
      logged-out user heading for a page that requires login goes to `login`;
      everything else proceeds. */
  function Guard(to: Target, isLoggedIn: bool): (d: Decision)
    ensures d.RedirectHome? <==> to.name == Some(LoginName) && isLoggedIn
    ensures d.RedirectLogin? <==> to.requiresAuth && !isLoggedIn
    ensures d.Proceed? <==> !(to.name == Some(LoginName) && isLoggedIn) && !(to.requiresAuth && !isLoggedIn)
  {
    if to.name == Some(LoginName) && isLoggedIn then RedirectHome
    else if to.requiresAuth && !isLoggedIn then RedirectLogin
    else Proceed
  }

  /** The guard as the router calls it: it consults the store's login flag and
      changes nothing (there is no `modifies` clause). */
  method BeforeEach(store: SessionStore.UserStore, to: Target) returns (d: Decision)
    ensures d == Guard(to, store.isLoggedIn)
    ensures d.RedirectLogin? ==> !store.isLoggedIn
    ensures d.RedirectHome? ==> store.isLoggedIn
  {
    d := Guard(to, store.isLoggedIn);
  }

  /** A logged-in user is never sent to `login`, and a logged-out one never
      sent home. */
  lemma GuardNeverRedirectsWrongly(to: Target, isLoggedIn: bool)
    ensures isLoggedIn ==> Guard(to, isLoggedIn) != RedirectLogin
    ensures !isLoggedIn ==> Guard(to, isLoggedIn) != RedirectHome
  {
  }

  /** Facts about the table: page names are unique, the catch-all is the last
      entry and the only redirect, it leads to `home`, and `home` and `login`
      are exactly the pages open without login. */
  lemma RouteTableFacts()
    ensures forall i, j :: 0 <= i < j < |Routes| && Routes[i].Page? && Routes[j].Page? ==> Routes[i].name != Routes[j].name
    ensures |Routes| > 0 && Routes[|Routes| - 1] == Redirect("/:pathMatch(.*)*", HomeName)
    ensures forall i :: 0 <= i < |Routes| - 1 ==> Routes[i].Page?
    ensures forall i :: 0 <= i < |Routes| && Routes[i].Page? ==>
              (!Routes[i].requiresAuth <==> Routes[i].name == HomeName || Routes[i].name == LoginName)
    ensures FindRoute(Routes, HomeName) == Some(Page(HomeName, "/", false))
    ensures FindRoute(Routes, LoginName) == Some(Page(LoginName, "/login", false))
  {
  }

  /** Every page of the table other than `login` that is open without login
      proceeds whatever the session. */
  lemma OpenPagesProceed(isLoggedIn: bool)
    ensures forall r :: r in Routes && r.Page? && !r.requiresAuth && r.name != LoginName ==>
              Guard(TargetOf(r), isLoggedIn) == Proceed
  {
  }

  /** The catch-all leads to a page that proceeds whatever the session. */
  lemma CatchAllProceeds(isLoggedIn: bool)
    ensures var r := FindRoute(Routes, Routes[|Routes| - 1].toName);
            r.Some? && Guard(TargetOf(r.value), isLoggedIn) == Proceed
  {
  }

  /** Redirects settle in one step: the page a redirect leads to exists in the
      table, and the guard lets the same session through to it. */
  lemma RedirectsSettle(to: Target, isLoggedIn: bool)
    ensures var d := Guard(to, isLoggedIn);
            d != Proceed ==>
              var r := FindRoute(Routes, RedirectName(d).value);
              r.Some? && Guard(TargetOf(r.value), isLoggedIn) == Proceed
  {
  }
}
