/**
 * The entities of the route generator (route declarations, route sets, the
 * whole structure and the resolved entries) and the per-declaration decisions:
 * acceptance, render condition, redirect target and key derivation.
 */
module RouteModel {
  import opened Wrappers

  /** The three route sets, processed in this order. */
  datatype Category = Anonymous | Authorized | UnAuthorized

  /**
   * An opaque view-layer unit. `renderable` stands for the host predicate
   * `isValidComp`, whose body is not part of this model.
   */
  datatype Component = Component(id: nat, renderable: bool)

  /** Extra Route props, passed through without interpretation. */
  datatype RouteProps = RouteProps(id: nat)

  /** One route as authored; every field may be absent. */
  datatype RouteDecl = RouteDecl(
    path: Option<string>,
    component: Option<Component>,
    routeProps: Option<RouteProps>,
    redirectPath: Option<string>,
    condition: Option<bool>)

  /** The `routes` field of a set: missing, present but not an array, or an array. */
  datatype RoutesField = NoRoutes | NotAnArray | Routes(decls: seq<RouteDecl>)

  datatype RouteSet = RouteSet(fallbackPath: Option<string>, routes: RoutesField)

  /** The structure handed to the resolver; a `None` set is one `has` does not find. */
  datatype Structure = Structure(
    isAuthenticated: Option<bool>,
    anonymousStructure: Option<RouteSet>,
    authorizedStructure: Option<RouteSet>,
    unAuthorizedStructure: Option<RouteSet>,
    fallbackComponent: Option<Component>)

  /** What a gated route's `render` callback yields. */
  datatype Outcome = RenderComponent(component: Component) | RedirectTo(target: string)

  /** One element of the resolved list. */
  datatype Entry =
    | Anon(key: string, path: string, component: Component, props: Option<RouteProps>)
    | Gated(key: string, path: string, outcome: Outcome)
    | CatchAll(component: Component)

  /** Diagnostic tags standing for the two `console.warn` calls. */
  datatype Warning = RouteSkipped(category: Category, index: nat) | RoutesMissing(category: Category)

  /** `isValidComp(component)`; an absent component is not valid. */
  predicate IsValidComp(c: Option<Component>) {
    c.Some? && c.value.renderable
  }

  // Destructuring defaults of a declaration and of a set.
  function PathOf(d: RouteDecl): string { d.path.GetOr("") }
  function RedirectOf(d: RouteDecl): string { d.redirectPath.GetOr("") }
  function ConditionOf(d: RouteDecl): bool { d.condition.GetOr(true) }
  function FallbackPathOf(s: RouteSet): string { s.fallbackPath.GetOr("") }

  /** The mandatory-props check: a declaration is kept unless this is false. */
  predicate Accepts(category: Category, fallbackPath: string, d: RouteDecl)
    ensures Accepts(category, fallbackPath, d) ==> PathOf(d) != "" && IsValidComp(d.component)
    ensures category != Anonymous && fallbackPath == "" ==> !Accepts(category, fallbackPath, d)
  {
    !(PathOf(d) == "" || (if category != Anonymous then fallbackPath == "" else false) || !IsValidComp(d.component))
  }

  /** The render condition, fixed when the entry is generated. */
  function RenderCondition(isAuthenticated: bool, category: Category, d: RouteDecl): (r: bool)
    ensures r ==> ConditionOf(d)
    ensures d.condition.None? && category == Authorized ==> r == isAuthenticated
    ensures d.condition.None? && category == UnAuthorized ==> r == !isAuthenticated
  {
    (if category == Authorized then isAuthenticated else !isAuthenticated) && ConditionOf(d)
  }

  /** `redirectPath || fallbackPath`. */
  function RedirectTarget(d: RouteDecl, fallbackPath: string): (target: string)
    ensures target == RedirectOf(d) || target == fallbackPath
    ensures RedirectOf(d) != "" ==> target == RedirectOf(d)
    ensures fallbackPath != "" ==> target != ""
  {
    if RedirectOf(d) != "" then RedirectOf(d) else fallbackPath
  }

  predicate IsDigit(c: char) { '0' <= c <= '9' }

  function DigitValue(c: char): (d: nat)
    requires IsDigit(c)
    ensures d < 10
  {
    (c as int) - ('0' as int)
  }

  function DigitChar(d: nat): (c: char)
    requires d < 10
    ensures IsDigit(c) && DigitValue(c) == d
  {
    ('0' as int + d) as char
  }

  /** The number a digit string spells, most significant digit first. */
  function DecimalValue(s: string): nat
    requires forall i :: 0 <= i < |s| ==> IsDigit(s[i])
  {
    if s == [] then 0 else 10 * DecimalValue(s[..|s| - 1]) + DigitValue(s[|s| - 1])
  }

  /** The decimal rendering of an index in a template literal. */
  function NatToString(n: nat): (s: string)
    ensures |s| > 0
    ensures forall i :: 0 <= i < |s| ==> IsDigit(s[i])
    ensures n >= 10 ==> |s| >= 2
  {
    if n < 10 then [DigitChar(n)] else NatToString(n / 10) + [DigitChar(n % 10)]
  }

  /** The rendering spells `n`, most significant digit first, without leading zeros. */
  lemma {:induction false} NatToStringSpellsIndex(n: nat)
    ensures DecimalValue(NatToString(n)) == n
    ensures n == 0 || NatToString(n)[0] != '0'
  {
    if n >= 10 {
      var s := NatToString(n);
      NatToStringSpellsIndex(n / 10);
      assert s[..|s| - 1] == NatToString(n / 10);
    }
  }

  /** The React key `${path}_${index}`. */
  function Key(path: string, index: nat): (k: string)
    ensures |k| > |path| + 1 && k[..|path|] == path && k[|path|] == '_'
  {
    path + "_" + NatToString(index)
  }

  /** Distinct indices are written differently: the digits spell the index back. */
  lemma NatToStringInjective(a: nat, b: nat)
    requires NatToString(a) == NatToString(b)
    ensures a == b
  {
    NatToStringSpellsIndex(a);
    NatToStringSpellsIndex(b);
  }

  /** Two keys are equal only when they carry the same index. */
  lemma KeyDeterminesIndex(p1: string, i1: nat, p2: string, i2: nat)
    requires Key(p1, i1) == Key(p2, i2)
    ensures i1 == i2
  {
    var k := Key(p1, i1);
    var s1, s2 := NatToString(i1), NatToString(i2);
    assert k == p1 + "_" + s1 == p2 + "_" + s2;
    if |s1| == |s2| {
      assert s1 == k[|k| - |s1|..] == s2;
      NatToStringInjective(i1, i2);
    }
  }

  /** The entry an accepted declaration at position `index` becomes. */
  function MakeEntry(isAuthenticated: bool, category: Category, fallbackPath: string, d: RouteDecl, index: nat): (r: Entry)
    requires Accepts(category, fallbackPath, d)
    ensures !r.CatchAll? && r.key == Key(PathOf(d), index) && r.path == PathOf(d)
    ensures r.Anon? <==> category == Anonymous
    ensures r.Anon? ==> r.component == d.component.value && r.props == d.routeProps
    ensures r.Gated? && r.outcome.RenderComponent? ==> r.outcome.component == d.component.value
    ensures r.Gated? && r.outcome.RedirectTo? ==> r.outcome.target != ""
  {
    var path := PathOf(d);
    var component := d.component.value;
    if category == Anonymous then
      Anon(Key(path, index), path, component, d.routeProps)
    else
      Gated(Key(path, index), path,
            if RenderCondition(isAuthenticated, category, d) then RenderComponent(component)
            else RedirectTo(RedirectTarget(d, fallbackPath)))
  }
}
