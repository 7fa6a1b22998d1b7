# Protected route generator — a Dafny model

This project models the decision engine of `protected-react-routes-generators`
(`src/index.js`). The default export takes a route-configuration structure
and an `isAuthenticated` flag. It returns an ordered list of route entries:

- the entries of the anonymous set,
- then those of the authorized set,
- then those of the unAuthorized set,
- then at most one path-less catch-all built from `fallbackComponent`.

The per-set generator `routesGenerator` walks a set's `routes` array in
declared order. It drops each invalid declaration with one warning. Each
accepted declaration becomes an entry keyed `${path}_${index}`.

- Anonymous entries always render their component and carry their `routeProps`.
- Gated entries (authorized or unAuthorized) render iff the authentication test
  for their set and their `condition` both hold. Otherwise they redirect to
  `redirectPath || fallbackPath`.

Layout:

- `wrappers.dfy`: `Option`, which stands for a field that may be absent, with its destructuring default.
- `route_model.dfy`: the entities (declaration, set, structure, entry, warning tag). It also holds the per-declaration decisions (acceptance, render condition, redirect target) and key derivation, including the proof that a key determines its index.
- `generator.dfy`: `routesGenerator` as the method `RoutesGenerator` (the `routes` branching), proved against the specification function `GenerateSet`; its `forEach` loop is the method `ForEachRoute`, proved against the recursive `GenEntries`/`SkipWarnings`; plus the lemmas about one set.
- `resolver.dfy`: the default export as a method proved against the specification function `Resolution`, plus the ordering lemma. `Resolution` is built from `IsAuthenticated` (the flag with its default false), `SetOutput` (one set, or nothing when `has` does not find it) and `HasCatchAll`/`CatchAllPart` (the catch-all test of `src/index.js:39`).
- `scenarios.dfy`: concrete configurations and their exact outputs.

The foreign predicates from `./Utils` are modelled as data. `isValidComp` is
the `renderable` flag of a `Component`. `has(obj, key)` is whether the
corresponding `Option` field is `Some`. Warnings are the tags
`RouteSkipped(category, index)` and `RoutesMissing(category)`. The method
returns them beside the entries instead of printing them.

Three behaviours of the code worth knowing:

- A present but empty `routes` array emits no warning. Only a missing `routes` field warns (`src/index.js:63-65`, `108-110`). A `routes` value that is not an array is also silently ignored.
- A gated entry's render/redirect decision is computed once, at generation time, from the `isAuthenticated` passed in (`src/index.js:81`). The `render` callback only reads that captured value. It is not re-evaluated at navigation time, so the model stores the fixed `Outcome` in the entry.
- A skipped declaration yields one fixed warning, whatever the failing condition. It is not a composite diagnostic listing each failing condition.

## Model

| member | source | states |
|---|---|---|
| RouteModel.Accepts | src/index.js:68-77 | an accepted declaration has a non-empty path and a valid component; a gated set with an empty fallbackPath accepts nothing |
| RouteModel.RenderCondition | src/index.js:81 | rendering requires `condition`; when `condition` is absent (default true) an authorized route renders iff authenticated and an unAuthorized one iff not |
| RouteModel.RedirectTarget | src/index.js:101 | the target is the redirectPath when non-empty, otherwise the fallbackPath; it is one of the two and is non-empty whenever the fallbackPath is |
| RouteModel.NatToString | src/index.js:87 | the index is written as a non-empty string of decimal digits |
| RouteModel.NatToStringSpellsIndex | src/index.js:87 | those digits spell the index, most significant digit first, with no leading zero |
| RouteModel.Key | src/index.js:87 | the key is the path, then `_`, then more characters |
| RouteModel.NatToStringInjective | src/index.js:87 | distinct indices are written differently, since the digits spell the index back |
| RouteModel.MakeEntry | src/index.js:83-104 | an accepted declaration becomes an entry keyed `path_index` with its own path; anonymous ones are Anon entries carrying the component and routeProps; gated ones render that component or redirect to a non-empty target |
| RouteModel.KeyDeterminesIndex | src/index.js:87-98 | two equal keys carry the same index, whatever their paths |
| Generator.GenEntries | src/index.js:66-106 | a set yields at most one entry per declaration; anonymous sets yield only Anon entries and gated sets only Gated entries |
| Generator.SkipWarnings | src/index.js:77-78 | the warnings are exactly one RouteSkipped tag per rejected declaration, tagged with its set and index |
| Generator.AcceptedIndices | src/index.js:77 | reference definition: strictly increasing positions, holding exactly the accepted declarations |
| Generator.GenerateSet | src/index.js:57-110 | a missing `routes` gives no entry and one RoutesMissing warning; a non-array or empty `routes` gives nothing; otherwise entries plus warnings number the declarations; every warning is tagged with the set's category |
| Generator.RoutesGenerator | src/index.js:55-113 | the generator produces the specified entries and warnings; a missing `routes` gives no entry and one RoutesMissing warning; an empty or non-array `routes` gives nothing; otherwise entries plus warnings number the declarations |
| Generator.ForEachRoute | src/index.js:66-106 | the `forEach` loop pushes exactly the specified entries and warnings, which together number the declarations |
| Generator.EntriesAreAccepted | src/index.js:66-106 | the entries are exactly the accepted declarations in declared order, each built from its own position in the array (skipped ones still counted) |
| Generator.SetCount | src/index.js:66-106 | every declaration yields exactly one entry or one warning |
| Generator.KeysDistinct | src/index.js:66-98 | entries of one set have pairwise distinct keys, even with repeated paths |
| Generator.AnonymousEntriesRender | src/index.js:83-91 | every anonymous entry renders its component with its routeProps under key `path_index`; the entries do not depend on isAuthenticated or on condition |
| Generator.GatedEntriesDecide | src/index.js:81-103 | authorized entries render iff isAuthenticated and condition; unAuthorized ones iff not isAuthenticated and condition; otherwise they redirect to redirectPath or else fallbackPath, never to "" |
| Generator.GatedWithoutFallback | src/index.js:57-78 | a gated set with an empty fallbackPath yields no entry and one warning per declaration |
| Generator.SpoilingOneDropsOne | src/index.js:77-106 | making one accepted declaration invalid lowers the entry count by exactly one |
| Resolver.Resolve | src/index.js:15-46 | the resolver returns exactly Resolution: the sets in fixed order, then the catch-all |
| Resolver.Resolution | src/index.js:15-45 | a set the structure lacks emits no warning of its category |
| Resolver.ResolutionOrder | src/index.js:24-45 | the output is exactly the anonymous set's entries, then the authorized set's, then the unAuthorized set's, then the catch-all. The catch-all is present iff fallbackComponent is given and valid, and it is the only path-less entry |
| Resolver.AbsentSetContributesNothing | src/index.js:26-36 | a set the structure lacks adds neither entries nor warnings |
| Scenarios.AnonymousHome | src/index.js:83-91 | one anonymous route gives one always-rendering entry keyed `/home_0` |
| Scenarios.AuthorizedLoggedOut | src/index.js:81-101 | a logged-out visitor of an authorized route is redirected to the fallbackPath |
| Scenarios.AuthorizedLoggedIn | src/index.js:81-101 | a logged-in visitor of the same route gets the component |
| Scenarios.UnAuthorizedRedirectOverride | src/index.js:101 | redirectPath is preferred over a different fallbackPath |
| Scenarios.AuthorizedWithoutFallback | src/index.js:77-78 | an authorized set without fallbackPath gives no entry and one warning |
| Scenarios.WithCatchAll | src/index.js:39-43 | a valid fallbackComponent appends a last CatchAll entry |
| Scenarios.MissingVersusEmptyRoutes | src/index.js:63-110 | a missing routes field warns once; an empty routes array is silent |
| Scenarios.SkippedIndexStillCounts | src/index.js:66-98 | a skipped first declaration leaves the next entry keyed with index 1 |
| Scenarios.KeyOfIndexTen | src/index.js:87 | index 10 gives the key `/a_10` |
| Scenarios.AuthorizedBeforeUnAuthorized | src/index.js:30-36 | with both gated sets present, the authorized entry comes before the unAuthorized one |
| Scenarios.OneDecl | src/index.js:66-106 | a one-element array yields its declaration's entry when accepted, its warning otherwise |

## Left out

- JSX construction of `<Route>`/`<Redirect>`, the `exact` flag, and react-router's matching and rendering: entries are plain data (`Anon`, `Gated`, `CatchAll`).
- The bodies of `has` and `isValidComp` (`./Utils`): Utils is not part of this model. They are presence (`Option`) and the `renderable` flag. A `null` structure is not modelled.
- JavaScript truthiness of non-string `path`/`fallbackPath`/`redirectPath` values and non-boolean `isAuthenticated`/`condition` values. Strings are falsy iff absent or empty; flags are booleans.
- A `null` or non-object route element behaves like a declaration whose fields are all absent (`RouteDecl(None, …)`), so it is rejected like any other.
- `console.warn` message text: only the tags are kept.
- The contents of `routeProps` and the spread merge with Route's own props: `routeProps` is an opaque value passed through on anonymous entries only.
- Determinism and idempotence hold by construction: every operation is a Dafny function or a method equal to one.
