/**
 * The default export: the anonymous, authorized and unAuthorized sets, in
 * that order, followed by at most one path-less catch-all entry.
 */
module Resolver {
  import opened Wrappers
  import opened RouteModel
  import opened Generator

  /** `isAuthenticated`, defaulting to false. */
  function IsAuthenticated(s: Structure): bool { s.isAuthenticated.GetOr(false) }

  /** What one optional set contributes: nothing when the structure lacks it. */
  function SetOutput(isAuthenticated: bool, routeSet: Option<RouteSet>, category: Category): Generated {
    if routeSet.Some? then GenerateSet(isAuthenticated, routeSet.value, category) else Generated([], [])
  }

  /** `fallbackComponent && isValidComp(fallbackComponent)`. */
  predicate HasCatchAll(s: Structure) {
    s.fallbackComponent.Some? && IsValidComp(s.fallbackComponent)
  }

  function CatchAllPart(s: Structure): seq<Entry> {
    if HasCatchAll(s) then [CatchAll(s.fallbackComponent.value)] else []
  }

  /** The resolved list and the diagnostics emitted while building it. */
  function Resolution(s: Structure): (r: Generated)
    ensures s.anonymousStructure.None? ==> forall w :: w in r.warnings ==> w.category != Anonymous
    ensures s.authorizedStructure.None? ==> forall w :: w in r.warnings ==> w.category != Authorized
    ensures s.unAuthorizedStructure.None? ==> forall w :: w in r.warnings ==> w.category != UnAuthorized
  {
    var isAuthenticated := IsAuthenticated(s);
    var anon := SetOutput(isAuthenticated, s.anonymousStructure, Anonymous);
    var auth := SetOutput(isAuthenticated, s.authorizedStructure, Authorized);
    var unauth := SetOutput(isAuthenticated, s.unAuthorizedStructure, UnAuthorized);
    Generated(anon.entries + auth.entries + unauth.entries + CatchAllPart(s),
              anon.warnings + auth.warnings + unauth.warnings)
  }

  /** The resolver: pushes each present set's entries, then the catch-all. */
  method Resolve(structure: Structure) returns (dynamicRoutes: seq<Entry>, warnings: seq<Warning>)
    ensures Generated(dynamicRoutes, warnings) == Resolution(structure)
  {
    var isAuthenticated := IsAuthenticated(structure);
    ghost var anon := SetOutput(isAuthenticated, structure.anonymousStructure, Anonymous);
    ghost var auth := SetOutput(isAuthenticated, structure.authorizedStructure, Authorized);
    ghost var unauth := SetOutput(isAuthenticated, structure.unAuthorizedStructure, UnAuthorized);
    dynamicRoutes, warnings := [], [];
    if structure.anonymousStructure.Some? {
      var generated, warned := RoutesGenerator(isAuthenticated, structure.anonymousStructure.value, Anonymous);
      dynamicRoutes, warnings := dynamicRoutes + generated, warnings + warned;
    }
    assert dynamicRoutes == anon.entries && warnings == anon.warnings;
    if structure.authorizedStructure.Some? {
      var generated, warned := RoutesGenerator(isAuthenticated, structure.authorizedStructure.value, Authorized);
      dynamicRoutes, warnings := dynamicRoutes + generated, warnings + warned;
    }
    assert dynamicRoutes == anon.entries + auth.entries && warnings == anon.warnings + auth.warnings;
    if structure.unAuthorizedStructure.Some? {
      var generated, warned := RoutesGenerator(isAuthenticated, structure.unAuthorizedStructure.value, UnAuthorized);
      dynamicRoutes, warnings := dynamicRoutes + generated, warnings + warned;
    }
    assert dynamicRoutes == anon.entries + auth.entries + unauth.entries;
    assert warnings == anon.warnings + auth.warnings + unauth.warnings;
    if structure.fallbackComponent.Some? && IsValidComp(structure.fallbackComponent) {
      dynamicRoutes := dynamicRoutes + [CatchAll(structure.fallbackComponent.value)];
    }
  }

  /** Entries of one optional set: anonymous ones are Anon, gated ones Gated, none is a catch-all. */
  lemma SetOutputShape(isAuthenticated: bool, routeSet: Option<RouteSet>, category: Category)
    ensures var es := SetOutput(isAuthenticated, routeSet, category).entries;
            forall k :: 0 <= k < |es| ==> (es[k].Anon? <==> category == Anonymous) && !es[k].CatchAll?
  {
  }

  /**
   * The output is the anonymous set's entries, then the authorized set's,
   * then the unAuthorized set's, each block exactly that set's output, then
   * the catch-all iff a valid fallbackComponent is given; the catch-all is
   * the only path-less entry and is always last.
   */
  lemma ResolutionOrder(s: Structure)
    ensures var r := Resolution(s).entries;
            var isAuthenticated := IsAuthenticated(s);
            var anon := SetOutput(isAuthenticated, s.anonymousStructure, Anonymous).entries;
            var auth := SetOutput(isAuthenticated, s.authorizedStructure, Authorized).entries;
            var unauth := SetOutput(isAuthenticated, s.unAuthorizedStructure, UnAuthorized).entries;
            var a := |anon|;
            var b := a + |auth|;
            var g := b + |unauth|;
            |r| == g + (if HasCatchAll(s) then 1 else 0) &&
            r[..a] == anon && r[a..b] == auth && r[b..g] == unauth &&
            (forall k :: 0 <= k < a ==> r[k].Anon?) &&
            (forall k :: a <= k < g ==> r[k].Gated?) &&
            (forall k :: 0 <= k < |r| ==> (r[k].CatchAll? <==> k == g)) &&
            (HasCatchAll(s) ==> r[g] == CatchAll(s.fallbackComponent.value))
  {
    var isAuthenticated := IsAuthenticated(s);
    SetOutputShape(isAuthenticated, s.anonymousStructure, Anonymous);
    SetOutputShape(isAuthenticated, s.authorizedStructure, Authorized);
    SetOutputShape(isAuthenticated, s.unAuthorizedStructure, UnAuthorized);
    ConcatShape(SetOutput(isAuthenticated, s.anonymousStructure, Anonymous).entries,
                SetOutput(isAuthenticated, s.authorizedStructure, Authorized).entries,
                SetOutput(isAuthenticated, s.unAuthorizedStructure, UnAuthorized).entries,
                CatchAllPart(s));
  }

  lemma ConcatShape(e1: seq<Entry>, e2: seq<Entry>, e3: seq<Entry>, c: seq<Entry>)
    requires forall k :: 0 <= k < |e1| ==> e1[k].Anon?
    requires forall k :: 0 <= k < |e2| ==> e2[k].Gated?
    requires forall k :: 0 <= k < |e3| ==> e3[k].Gated?
    requires |c| <= 1 && forall k :: 0 <= k < |c| ==> c[k].CatchAll?
    ensures var r := e1 + e2 + e3 + c;
            var g := |e1| + |e2| + |e3|;
            |r| == g + |c| &&
            r[..|e1|] == e1 && r[|e1|..|e1| + |e2|] == e2 && r[|e1| + |e2|..g] == e3 &&
            (forall k :: 0 <= k < |e1| ==> r[k].Anon?) &&
            (forall k :: |e1| <= k < g ==> r[k].Gated?) &&
            (forall k :: 0 <= k < |r| ==> (r[k].CatchAll? <==> k == g)) &&
            (|c| == 1 ==> r[g] == c[0])
  {
    var r := e1 + e2 + e3 + c;
    assert r[..|e1|] == e1;
    assert r[|e1|..|e1| + |e2|] == e2;
    assert r[|e1| + |e2|..|e1| + |e2| + |e3|] == e3;
    forall k | 0 <= k < |r|
      ensures (k < |e1| ==> r[k].Anon?) && (|e1| <= k < |e1| + |e2| + |e3| ==> r[k].Gated?)
      ensures k >= |e1| + |e2| + |e3| ==> r[k] == c[k - |e1| - |e2| - |e3|]
    {
      if k < |e1| {
        assert r[k] == e1[k];
      } else if k < |e1| + |e2| {
        assert r[k] == e2[k - |e1|];
      } else if k < |e1| + |e2| + |e3| {
        assert r[k] == e3[k - |e1| - |e2|];
      }
    }
  }

  /** A set the structure lacks contributes neither entries nor diagnostics. */
  lemma AbsentSetContributesNothing(isAuthenticated: bool, category: Category)
    ensures SetOutput(isAuthenticated, None, category) == Generated([], [])
  {
  }
}
