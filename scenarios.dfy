/** Concrete configurations and what the resolver makes of them. */
module Scenarios {
  import opened Wrappers
  import opened RouteModel
  import opened Generator
  import opened Resolver

  const Home := Component(1, true)
  const Dash := Component(2, true)
  const Login := Component(3, true)
  const NotFound := Component(4, true)

  function Decl(path: string, component: Component): RouteDecl {
    RouteDecl(Some(path), Some(component), None, None, None)
  }

  function Only(isAuthenticated: Option<bool>, category: Category, routeSet: RouteSet): Structure {
    Structure(isAuthenticated,
              if category == Anonymous then Some(routeSet) else None,
              if category == Authorized then Some(routeSet) else None,
              if category == UnAuthorized then Some(routeSet) else None,
              None)
  }

  /** A one-declaration array yields that declaration's entry, or its diagnostic. */
  lemma OneDecl(isAuthenticated: bool, category: Category, fallbackPath: string, d: RouteDecl)
    ensures Accepts(category, fallbackPath, d) ==>
              GenEntries(isAuthenticated, category, fallbackPath, [d], 1) == [MakeEntry(isAuthenticated, category, fallbackPath, d, 0)] &&
              SkipWarnings(category, fallbackPath, [d], 1) == []
    ensures !Accepts(category, fallbackPath, d) ==>
              GenEntries(isAuthenticated, category, fallbackPath, [d], 1) == [] &&
              SkipWarnings(category, fallbackPath, [d], 1) == [RouteSkipped(category, 0)]
    ensures Key(PathOf(d), 0) == PathOf(d) + "_0" && Key(PathOf(d), 1) == PathOf(d) + "_1"
  {
    assert NatToString(0) == "0" && NatToString(1) == "1";
  }

  /** One anonymous route, flag left out: one always-rendering entry. */
  lemma AnonymousHome()
    ensures Resolution(Only(None, Anonymous, RouteSet(None, Routes([Decl("/home", Home)]))))
         == Generated([Anon("/home_0", "/home", Home, None)], [])
  {
    OneDecl(false, Anonymous, "", Decl("/home", Home));
    assert Accepts(Anonymous, "", Decl("/home", Home));
    assert Key("/home", 0) == "/home_0";
  }

  /** A logged-out visitor of an authorized route is sent to the fallbackPath. */
  lemma AuthorizedLoggedOut()
    ensures Resolution(Only(Some(false), Authorized, RouteSet(Some("/login"), Routes([Decl("/dashboard", Dash)]))))
         == Generated([Gated("/dashboard_0", "/dashboard", RedirectTo("/login"))], [])
  {
    OneDecl(false, Authorized, "/login", Decl("/dashboard", Dash));
    assert Key("/dashboard", 0) == "/dashboard_0";
    assert Accepts(Authorized, "/login", Decl("/dashboard", Dash));
  }

  /** The same route renders for a logged-in visitor. */
  lemma AuthorizedLoggedIn()
    ensures Resolution(Only(Some(true), Authorized, RouteSet(Some("/login"), Routes([Decl("/dashboard", Dash)]))))
         == Generated([Gated("/dashboard_0", "/dashboard", RenderComponent(Dash))], [])
  {
    OneDecl(true, Authorized, "/login", Decl("/dashboard", Dash));
    assert Key("/dashboard", 0) == "/dashboard_0";
    assert Accepts(Authorized, "/login", Decl("/dashboard", Dash));
  }

  /** A per-route redirectPath wins over the set's fallbackPath. */
  lemma UnAuthorizedRedirectOverride()
    ensures Resolution(Only(Some(true), UnAuthorized,
                            RouteSet(Some("/fallback"), Routes([RouteDecl(Some("/login"), Some(Login), None, Some("/home"), None)]))))
         == Generated([Gated("/login_0", "/login", RedirectTo("/home"))], [])
  {
    OneDecl(true, UnAuthorized, "/fallback", RouteDecl(Some("/login"), Some(Login), None, Some("/home"), None));
    assert Key("/login", 0) == "/login_0";
  }

  /** An authorized set without fallbackPath: no entry, one diagnostic. */
  lemma AuthorizedWithoutFallback()
    ensures Resolution(Only(Some(true), Authorized, RouteSet(None, Routes([Decl("/dashboard", Dash)]))))
         == Generated([], [RouteSkipped(Authorized, 0)])
  {
    OneDecl(true, Authorized, "", Decl("/dashboard", Dash));
  }

  /** A valid fallbackComponent adds a last, path-less entry. */
  lemma WithCatchAll()
    ensures Resolution(Only(None, Anonymous, RouteSet(None, Routes([Decl("/home", Home)]))).(fallbackComponent := Some(NotFound)))
         == Generated([Anon("/home_0", "/home", Home, None), CatchAll(NotFound)], [])
  {
    OneDecl(false, Anonymous, "", Decl("/home", Home));
    assert Key("/home", 0) == "/home_0";
    assert Accepts(Anonymous, "", Decl("/home", Home));
  }

  /** A missing routes field warns once; an empty routes array is silent. */
  lemma MissingVersusEmptyRoutes()
    ensures Resolution(Only(None, Authorized, RouteSet(Some("/login"), NoRoutes))) == Generated([], [RoutesMissing(Authorized)])
    ensures Resolution(Only(None, Authorized, RouteSet(Some("/login"), Routes([])))) == Generated([], [])
  {
  }

  /** A skipped declaration still uses up its index, so keys follow array positions. */
  lemma SkippedIndexStillCounts()
    ensures Resolution(Only(None, Anonymous, RouteSet(None, Routes([RouteDecl(Some("/a"), None, None, None, None), Decl("/a", Home)]))))
         == Generated([Anon("/a_1", "/a", Home, None)], [RouteSkipped(Anonymous, 0)])
  {
    var decls := [RouteDecl(Some("/a"), None, None, None, None), Decl("/a", Home)];
    OneDecl(false, Anonymous, "", decls[1]);
    assert decls[..1] == [decls[0]];
    assert GenEntries(false, Anonymous, "", decls, 1) == [];
    assert SkipWarnings(Anonymous, "", decls, 1) == [RouteSkipped(Anonymous, 0)];
    assert Key("/a", 1) == "/a_1";
  }

  /** Index 10 is written "10", as the template literal writes it. */
  lemma KeyOfIndexTen()
    ensures Key("/a", 10) == "/a_10"
  {
    assert NatToString(1) == "1" && NatToString(0) == "0";
    assert NatToString(10) == NatToString(1) + [DigitChar(0)];
  }

  /** Both gated sets present: the authorized entry precedes the unAuthorized one. */
  lemma AuthorizedBeforeUnAuthorized()
    ensures Resolution(Structure(Some(true), None,
                                 Some(RouteSet(Some("/login"), Routes([Decl("/dash", Dash)]))),
                                 Some(RouteSet(Some("/home"), Routes([Decl("/login", Login)]))),
                                 None))
         == Generated([Gated("/dash_0", "/dash", RenderComponent(Dash)),
                       Gated("/login_0", "/login", RedirectTo("/home"))], [])
  {
    OneDecl(true, Authorized, "/login", Decl("/dash", Dash));
    OneDecl(true, UnAuthorized, "/home", Decl("/login", Login));
    assert Key("/dash", 0) == "/dash_0";
    assert Key("/login", 0) == "/login_0";
    assert Accepts(Authorized, "/login", Decl("/dash", Dash));
    assert Accepts(UnAuthorized, "/home", Decl("/login", Login));
  }
}
