/**
 * `routesGenerator`: one route set becomes its entries, in declared order,
 * plus one diagnostic per skipped declaration.
 */
module Generator {
  import opened Wrappers
  import opened RouteModel

  /** The entries and diagnostics one route set produces. */
  datatype Generated = Generated(entries: seq<Entry>, warnings: seq<Warning>)

  /** The entries the first `n` declarations produce, in declared order. */
  function GenEntries(isAuthenticated: bool, category: Category, fallbackPath: string, decls: seq<RouteDecl>, n: nat): (r: seq<Entry>)
    requires n <= |decls|
    ensures |r| <= n
    ensures category == Anonymous ==> forall k :: 0 <= k < |r| ==> r[k].Anon?
    ensures category != Anonymous ==> forall k :: 0 <= k < |r| ==> r[k].Gated?
  {
    if n == 0 then []
    else
      var d := decls[n - 1];
      GenEntries(isAuthenticated, category, fallbackPath, decls, n - 1)
        + (if Accepts(category, fallbackPath, d) then [MakeEntry(isAuthenticated, category, fallbackPath, d, n - 1)] else [])
  }

  /** The diagnostics the first `n` declarations produce. */
  function SkipWarnings(category: Category, fallbackPath: string, decls: seq<RouteDecl>, n: nat): (r: seq<Warning>)
    requires n <= |decls|
    ensures forall w :: w in r ==> w.RouteSkipped? && w.category == category && w.index < n
    ensures forall i :: 0 <= i < n ==> (RouteSkipped(category, i) in r <==> !Accepts(category, fallbackPath, decls[i]))
  {
    if n == 0 then []
    else
      SkipWarnings(category, fallbackPath, decls, n - 1)
        + (if Accepts(category, fallbackPath, decls[n - 1]) then [] else [RouteSkipped(category, n - 1)])
  }

  /**
   * The positions, below `n`, of the accepted declarations: a reference
   * definition of which declarations survive validation.
   */
  function AcceptedIndices(category: Category, fallbackPath: string, decls: seq<RouteDecl>, n: nat): (r: seq<nat>)
    requires n <= |decls|
    ensures forall k :: 0 <= k < |r| ==> r[k] < n && Accepts(category, fallbackPath, decls[r[k]])
    ensures forall i :: 0 <= i < n && Accepts(category, fallbackPath, decls[i]) ==> i in r
    ensures forall k1, k2 :: 0 <= k1 < k2 < |r| ==> r[k1] < r[k2]
  {
    if n == 0 then []
    else
      AcceptedIndices(category, fallbackPath, decls, n - 1)
        + (if Accepts(category, fallbackPath, decls[n - 1]) then [n - 1] else [])
  }

  /** What `routesGenerator` returns and reports for one set. */
  function GenerateSet(isAuthenticated: bool, routeSet: RouteSet, category: Category): (r: Generated)
    ensures routeSet.routes.NoRoutes? ==> r == Generated([], [RoutesMissing(category)])
    ensures routeSet.routes.NotAnArray? || routeSet.routes == Routes([]) ==> r == Generated([], [])
    ensures routeSet.routes.Routes? ==> |r.entries| + |r.warnings| == |routeSet.routes.decls|
    ensures forall w :: w in r.warnings ==> w.category == category
  {
    var fallbackPath := FallbackPathOf(routeSet);
    match routeSet.routes
    case NoRoutes => Generated([], [RoutesMissing(category)])
    case NotAnArray => Generated([], [])
    case Routes(decls) =>
      if |decls| > 0 then
        SetCount(isAuthenticated, category, fallbackPath, decls, |decls|);
        Generated(GenEntries(isAuthenticated, category, fallbackPath, decls, |decls|),
                  SkipWarnings(category, fallbackPath, decls, |decls|))
      else Generated([], [])
  }

  /** The generator itself: missing, non-array, empty and populated `routes`. */
  method RoutesGenerator(isAuthenticated: bool, routeSet: RouteSet, category: Category)
    returns (generatedRoutes: seq<Entry>, warnings: seq<Warning>)
    ensures Generated(generatedRoutes, warnings) == GenerateSet(isAuthenticated, routeSet, category)
    ensures routeSet.routes.NoRoutes? ==> generatedRoutes == [] && warnings == [RoutesMissing(category)]
    ensures routeSet.routes == NotAnArray || routeSet.routes == Routes([]) ==> generatedRoutes == [] && warnings == []
    ensures routeSet.routes.Routes? ==> |generatedRoutes| + |warnings| == |routeSet.routes.decls|
  {
    generatedRoutes, warnings := [], [];
    var fallbackPath := FallbackPathOf(routeSet);
    match routeSet.routes {
      case NoRoutes =>
        warnings := [RoutesMissing(category)];
      case NotAnArray =>
      case Routes(setRoutes) =>
        if |setRoutes| > 0 {
          generatedRoutes, warnings := ForEachRoute(isAuthenticated, category, fallbackPath, setRoutes);
        }
    }
  }

  /** The `forEach` over a set's routes: push one entry per accepted declaration, warn for the others. */
  method ForEachRoute(isAuthenticated: bool, category: Category, fallbackPath: string, setRoutes: seq<RouteDecl>)
    returns (generatedRoutes: seq<Entry>, warnings: seq<Warning>)
    ensures generatedRoutes == GenEntries(isAuthenticated, category, fallbackPath, setRoutes, |setRoutes|)
    ensures warnings == SkipWarnings(category, fallbackPath, setRoutes, |setRoutes|)
    ensures |generatedRoutes| + |warnings| == |setRoutes|
  {
    generatedRoutes, warnings := [], [];
    var isAnonymous := category == Anonymous;
    var isAuthorized := category == Authorized;
    var index := 0;
    while index < |setRoutes|
      invariant index <= |setRoutes|
      invariant generatedRoutes == GenEntries(isAuthenticated, category, fallbackPath, setRoutes, index)
      invariant warnings == SkipWarnings(category, fallbackPath, setRoutes, index)
    {
      var route := setRoutes[index];
      var path := PathOf(route);
      if path == "" || (if !isAnonymous then fallbackPath == "" else false) || !IsValidComp(route.component) {
        warnings := warnings + [RouteSkipped(category, index)];
      } else {
        var renderCondition := (if isAuthorized then isAuthenticated else !isAuthenticated) && ConditionOf(route);
        var component := route.component.value;
        if isAnonymous {
          generatedRoutes := generatedRoutes + [Anon(Key(path, index), path, component, route.routeProps)];
        } else {
          var redirectPath := RedirectOf(route);
          var outcome := if renderCondition then RenderComponent(component)
                         else RedirectTo(if redirectPath != "" then redirectPath else fallbackPath);
          generatedRoutes := generatedRoutes + [Gated(Key(path, index), path, outcome)];
        }
      }
      index := index + 1;
    }
    SetCount(isAuthenticated, category, fallbackPath, setRoutes, |setRoutes|);
  }

  /**
   * The entries are exactly the accepted declarations, in declared order,
   * each built from its own position in the declared array.
   */
  lemma {:induction false} EntriesAreAccepted(isAuthenticated: bool, category: Category, fallbackPath: string, decls: seq<RouteDecl>, n: nat)
    requires n <= |decls|
    ensures var es := GenEntries(isAuthenticated, category, fallbackPath, decls, n);
            var ix := AcceptedIndices(category, fallbackPath, decls, n);
            |es| == |ix| &&
            forall k :: 0 <= k < |ix| ==> es[k] == MakeEntry(isAuthenticated, category, fallbackPath, decls[ix[k]], ix[k])
  {
    if n > 0 {
      EntriesAreAccepted(isAuthenticated, category, fallbackPath, decls, n - 1);
    }
  }

  /** Every declaration yields exactly one entry or one diagnostic. */
  lemma {:induction false} SetCount(isAuthenticated: bool, category: Category, fallbackPath: string, decls: seq<RouteDecl>, n: nat)
    requires n <= |decls|
    ensures |GenEntries(isAuthenticated, category, fallbackPath, decls, n)| + |SkipWarnings(category, fallbackPath, decls, n)| == n
  {
    if n > 0 {
      SetCount(isAuthenticated, category, fallbackPath, decls, n - 1);
    }
  }

  /** Entries of one set carry pairwise distinct keys, even when paths repeat. */
  lemma KeysDistinct(isAuthenticated: bool, category: Category, fallbackPath: string, decls: seq<RouteDecl>)
    ensures var es := GenEntries(isAuthenticated, category, fallbackPath, decls, |decls|);
            forall k1, k2 :: 0 <= k1 < k2 < |es| ==> es[k1].key != es[k2].key
  {
    var es := GenEntries(isAuthenticated, category, fallbackPath, decls, |decls|);
    var ix := AcceptedIndices(category, fallbackPath, decls, |decls|);
    EntriesAreAccepted(isAuthenticated, category, fallbackPath, decls, |decls|);
    forall k1, k2 | 0 <= k1 < k2 < |es|
      ensures es[k1].key != es[k2].key
    {
      assert es[k1].key == Key(PathOf(decls[ix[k1]]), ix[k1]);
      assert es[k2].key == Key(PathOf(decls[ix[k2]]), ix[k2]);
      if es[k1].key == es[k2].key {
        KeyDeterminesIndex(PathOf(decls[ix[k1]]), ix[k1], PathOf(decls[ix[k2]]), ix[k2]);
      }
    }
  }

  /**
   * An anonymous entry renders its component and carries its routeProps;
   * neither the authentication flag nor `condition` is consulted.
   */
  lemma AnonymousEntriesRender(isAuthenticated: bool, fallbackPath: string, decls: seq<RouteDecl>)
    ensures var es := GenEntries(isAuthenticated, Anonymous, fallbackPath, decls, |decls|);
            var ix := AcceptedIndices(Anonymous, fallbackPath, decls, |decls|);
            |es| == |ix| &&
            forall k :: 0 <= k < |es| ==>
              var d := decls[ix[k]];
              es[k] == Anon(Key(PathOf(d), ix[k]), PathOf(d), d.component.value, d.routeProps)
    ensures GenEntries(isAuthenticated, Anonymous, fallbackPath, decls, |decls|)
         == GenEntries(!isAuthenticated, Anonymous, fallbackPath, decls, |decls|)
  {
    EntriesAreAccepted(isAuthenticated, Anonymous, fallbackPath, decls, |decls|);
    EntriesAreAccepted(!isAuthenticated, Anonymous, fallbackPath, decls, |decls|);
  }

  /**
   * A gated entry renders iff the authentication test for its category and
   * its `condition` both hold; otherwise it redirects to its `redirectPath`
   * when non-empty, else to the set's `fallbackPath`, never to "".
   */
  lemma GatedEntriesDecide(isAuthenticated: bool, category: Category, fallbackPath: string, decls: seq<RouteDecl>)
    requires category != Anonymous
    ensures var es := GenEntries(isAuthenticated, category, fallbackPath, decls, |decls|);
            var ix := AcceptedIndices(category, fallbackPath, decls, |decls|);
            |es| == |ix| &&
            forall k :: 0 <= k < |es| ==>
              var d := decls[ix[k]];
              es[k].Gated? && es[k].key == Key(PathOf(d), ix[k]) && es[k].path == PathOf(d) &&
              (category == Authorized ==> (es[k].outcome.RenderComponent? <==> isAuthenticated && ConditionOf(d))) &&
              (category == UnAuthorized ==> (es[k].outcome.RenderComponent? <==> !isAuthenticated && ConditionOf(d))) &&
              (es[k].outcome.RenderComponent? ==> es[k].outcome.component == d.component.value) &&
              (es[k].outcome.RedirectTo? ==>
                 es[k].outcome.target != "" &&
                 es[k].outcome.target == (if RedirectOf(d) != "" then RedirectOf(d) else fallbackPath))
  {
    EntriesAreAccepted(isAuthenticated, category, fallbackPath, decls, |decls|);
  }

  /** A gated set without a fallbackPath yields no entry and skips every declaration. */
  lemma {:induction false} GatedWithoutFallback(isAuthenticated: bool, category: Category, decls: seq<RouteDecl>, n: nat)
    requires category != Anonymous && n <= |decls|
    ensures GenEntries(isAuthenticated, category, "", decls, n) == []
    ensures |SkipWarnings(category, "", decls, n)| == n
  {
    if n > 0 {
      GatedWithoutFallback(isAuthenticated, category, decls, n - 1);
      assert !Accepts(category, "", decls[n - 1]);
      assert GenEntries(isAuthenticated, category, "", decls, n) == GenEntries(isAuthenticated, category, "", decls, n - 1);
      assert SkipWarnings(category, "", decls, n) == SkipWarnings(category, "", decls, n - 1) + [RouteSkipped(category, n - 1)];
    }
  }

  /**
   * Spoiling one accepted declaration (dropping a required field) removes
   * exactly its entry: the count falls by one.
   */
  lemma {:induction false} SpoilingOneDropsOne(isAuthenticated: bool, category: Category, fallbackPath: string,
                                              decls: seq<RouteDecl>, j: nat, spoiled: RouteDecl, n: nat)
    requires j < |decls| && n <= |decls|
    requires Accepts(category, fallbackPath, decls[j]) && !Accepts(category, fallbackPath, spoiled)
    ensures |GenEntries(isAuthenticated, category, fallbackPath, decls[j := spoiled], n)| + (if j < n then 1 else 0)
         == |GenEntries(isAuthenticated, category, fallbackPath, decls, n)|
  {
    if n > 0 {
      SpoilingOneDropsOne(isAuthenticated, category, fallbackPath, decls, j, spoiled, n - 1);
    }
  }
}
