# routetree route-generation core in Dafny

This project models the route-generation and reverse-routing core of the PHP route tree
`webflorist/routetree`. A route tree is a tree of nodes, each with a path segment per locale.
Each node has actions such as index, show and edit, and every action becomes one named route
per locale. The model covers three parts of the code:

- **`RouteAction`** (`src/RouteTree/RouteAction.php`). The parts covered:
  - the static action table: verb, parent action, default titles;
  - the route-name encoding `locale.nodeId.action`;
  - extraction of `{name}` path parameters;
  - the two-pass parameter auto-fill and its `UrlParametersMissingException`;
  - middleware compilation and the parameter-regex merge;
  - the breadcrumb "root line";
  - the title and navigation-title fallback ladders;
  - `setAction`'s classification of its argument, and `isActive`.

  `RouteAction` updates its fields in place, so it is a class with `modifies` clauses.
  Its loops are methods proved against functions of module `RouteActionSpec`.
- **`CanHaveSegments`** (`src/RouteTree/Traits/CanHaveSegments.php`). A per-locale segment map.
  A `{name}` segment registers the owner's route parameter, and only the first one does.
  This is class `CanHaveSegments.SegmentOwner`, specified by the functions `SetFor` and `Apply`.
- **`Http\Resources\Route`** (`src/RouteTree/Http/Resources/Route.php`). The resource id and
  the fixed fields of `toArray`, modelled as pure functions.

The owning `RouteNode` is not part of this model. It is the value `RouteNodes.RouteNode`, which holds:

- its id and its path per locale;
- its middleware and parameter regexes, as ordered maps;
- the names of the actions it has;
- its lowest root-line action;
- its parent.

The node's title services `getData` and `processTitle` are the function fields `data` and `process` of
`RouteNodes.TitleContext`, and the translator `trans()` is its function field `translate`. The texts the node's
`getTitle`, `getNavTitle` and `getActiveValue` return are its string fields `nodeTitle`, `nodeNavTitle`
and `activeValue`. Values that come from the
running framework are method parameters:

- the current action;
- the current route's parameters;
- the active nodes' parameter values;
- the configured locales.

PHP's string-keyed arrays are `OrderedMaps.OrderedMap`, a sequence of key/value pairs in insertion order.
`$a[$k] = $v`, `array_merge` and key filtering are modelled on it with their PHP ordering.
`explode`, `implode`, `strpos`, `array_reverse` and the brace tests are in `PhpBuiltins`.
`null` is `Wrappers.Option.None`, and a thrown exception is `Wrappers.Result.Failure`.

Behaviour of the code that its comments and names do not make obvious, and that the model keeps:

- `setPathSuffix` is documented (`src/RouteTree/RouteAction.php:236`) as a suffix on top of the node's path.
  `generateUri` (782-791) never reads it, so routes use the node's path alone.
- `getRootLineActions` (377-387) lists ancestor actions only, root first, as its comment at 360-374 describes.
  The action itself is never in the list.
- The titles (262-317) and the parent actions (417-428) are looked up in the table with the `name` field, not
  with `getName()`. For an unnamed action the key is `null`, which has no entry. Looking up `getName()` would
  give the verb, `get` or `post`. Those entries carry no default title, nav title or parent, so titles and
  parents would come out the same. Only the action-name argument handed to `getData` would differ.
- `setAction` (326-342) only ever sets fields and never clears them. A second call that recognises a
  different kind leaves the first kind's fields in place, so the handler fields can hold two kinds at once.
- In the shipped table every action with a default title also has a default nav title. So the default-title
  tier of `getNavTitle` (310-314) never decides the result.
- `getSegment` (`src/RouteTree/Traits/CanHaveSegments.php:70-81`) has no fallback: a locale never set reads `null`.

## Model

| member | source | states |
|---|---|---|
| PhpBuiltins.Split | src/RouteTree/RouteAction.php:565 | `explode` yields at least one piece and no piece contains the separator |
| PhpBuiltins.JoinSplit | src/RouteTree/RouteAction.php:565 | `implode` after `explode` gives the original string back |
| PhpBuiltins.SplitJoin | src/RouteTree/RouteAction.php:642 | `explode` after `implode` gives the pieces back when no piece holds the separator |
| PhpBuiltins.IndexOf | src/RouteTree/RouteAction.php:329 | `strpos` is the index of the first occurrence, and is absent exactly when the character does not occur |
| PhpBuiltins.StripBraces | src/RouteTree/RouteAction.php:568 | the brace-stripped text has no brace and only characters of the input |
| PhpBuiltins.BracedNameStripped | src/RouteTree/RouteAction.php:567-568 | a brace-free name written `{name}` passes the brace test and strips back to `name` |
| PhpBuiltins.Reverse | src/RouteTree/RouteAction.php:384 | `array_reverse` keeps the length and puts element `i` at position `n-1-i` |
| PhpBuiltins.ReverseMembers | src/RouteTree/RouteAction.php:384 | reversing keeps exactly the same elements |
| OrderedMaps.Get | src/RouteTree/RouteAction.php:216 | a key reads a value exactly when it is among the array's keys |
| OrderedMaps.PutValid | src/RouteTree/RouteAction.php:216 | assignment keeps the keys of a well-formed array unique |
| OrderedMaps.GetPut | src/RouteTree/RouteAction.php:216 | after assignment the key reads the new value and every other key reads as before |
| OrderedMaps.MergeOverlays | src/RouteTree/RouteAction.php:634 | `array_merge` keeps keys unique, puts the first array's keys first and the second's new keys after them in order, and a key of the second reads the second's value |
| OrderedMaps.WithoutKeeps | src/RouteTree/RouteAction.php:626-631 | filtering by a name list keeps the other keys unique and in order, drops exactly the listed names, and keeps values |
| OrderedMaps.Transform | src/RouteTree/RouteAction.php:637-645 | building an array entry by entry keeps the keys and their order |
| OrderedMaps.GetTransform | src/RouteTree/RouteAction.php:637-645 | each key of the built array reads the value computed from its own entry |
| ActionConfigs.Table | src/RouteTree/RouteAction.php:139-206 | exactly the nine conventional names have entries; each but `get` and `post` has its own name as suffix; every verb is get, post, put or delete |
| ActionConfigs.ConfigFor | src/RouteTree/RouteAction.php:139-206 | a `null` name finds no entry; a name finds its table entry |
| ActionConfigs.ParentLinks | src/RouteTree/RouteAction.php:139-206 | edit hangs under show, and show, create, update and destroy under index; no other name has a parent action |
| ActionConfigs.ParentRankDecreases | src/RouteTree/RouteAction.php:139-206 | following a parent link lowers the rank and reaches an action the table has, so chains end |
| ActionConfigs.ParentChain | src/RouteTree/RouteAction.php:139-206 | the chain of parent links is exactly as long as the rank |
| ActionConfigs.ParentChains | src/RouteTree/RouteAction.php:139-206 | the chains: edit to show to index; create, update, destroy to index; none for index, store or an unnamed action |
| ActionConfigs.DefaultTitleImpliesDefaultNavTitle | src/RouteTree/RouteAction.php:139-206 | every action with a default title also has a default nav title |
| ActionConfigs.Verbs | src/RouteTree/RouteAction.php:139-206 | the HTTP verb of each of the nine configured actions |
| AnnotatedNames.AnnotateStartsWithName | src/RouteTree/RouteAction.php:640-643 | a compiled `name[:p1,p2]` entry starts with the name |
| AnnotatedNames.AnnotateRoundTrip | src/RouteTree/RouteAction.php:640-643 | without `:` in the name and `,` in the items, name and items are read back from the entry |
| RouteActionSpec.RouteNameRoundTrip | src/RouteTree/RouteAction.php:669-683 | with no dot in locale and action name, the locale, node id and action name are read back from the route name, also when the node id is empty or dotted |
| RouteActionSpec.RouteNamesDistinct | src/RouteTree/RouteAction.php:669-683 | distinct (locale, node id, action) triples get distinct route names |
| RouteActionSpec.BracedParametersAppend | src/RouteTree/RouteAction.php:566-570 | the parameters of concatenated segment lists are the concatenated parameters |
| RouteActionSpec.PathParametersAreBare | src/RouteTree/RouteAction.php:558-574 | every returned parameter name is free of braces and slashes |
| RouteActionSpec.RenderedParameters | src/RouteTree/RouteAction.php:566-570 | rendering declared literal and `{name}` segments and extracting gives the declared names in order |
| RouteActionSpec.PathParametersOfJoinedPath | src/RouteTree/RouteAction.php:558-574 | re-deriving the parameters of a `/`-joined path of well-formed segments gives exactly the declared parameters, in order |
| RouteActionSpec.UnfilledMembers | src/RouteTree/RouteAction.php:695-703 | a name stays required exactly when it was required and the source does not set it non-null |
| RouteActionSpec.FilledEntries | src/RouteTree/RouteAction.php:695-703 | the target gains exactly the required names the source sets, with the source's values, and keeps its other entries |
| RouteActionSpec.MissingMembers | src/RouteTree/RouteAction.php:540-543 | a name is missing exactly when it is required and set by neither the supplied nor the active values |
| RouteActionSpec.UnfilledTwice | src/RouteTree/RouteAction.php:528-538 | the second pass over what the first left equals the required names set by neither source, in required order |
| RouteActionSpec.AutoFillFailure | src/RouteTree/RouteAction.php:516-549 | with nothing required the result is empty whatever is supplied; otherwise the exception is thrown exactly when some name is missing, listing the missing names in required order |
| RouteActionSpec.AutoFillSuccess | src/RouteTree/RouteAction.php:516-549 | on success the keys are exactly the required names; a supplied non-null value wins, else the active node's value is used |
| RouteActionSpec.WithSkipIdempotent | src/RouteTree/RouteAction.php:226-231 | skipping twice equals skipping once; the skip list never holds a duplicate and contains the name |
| RouteActionSpec.CompiledMiddlewareContract | src/RouteTree/RouteAction.php:622-648 | compiled middleware has unique names: the node's unskipped ones in node order, then the action-only ones in action order; each reads `name` or `name:p1,p2` with the action's parameters overriding the node's |
| RouteActionSpec.SkippedMiddleware | src/RouteTree/RouteAction.php:625-634 | a skipped name appears exactly when the action itself adds it |
| RouteActionSpec.ParentActionsFollowChain | src/RouteTree/RouteAction.php:417-428 | the same-node accumulation succeeds exactly when the node has every action on the parent chain, and then lists them nearest first |
| RouteActionSpec.ParentActionsBelow | src/RouteTree/RouteAction.php:417-428 | same-node parents sit on the same node and rank strictly below the action |
| RouteActionSpec.AccumulatedAncestors | src/RouteTree/RouteAction.php:394-406 | the accumulation holds only actions of the node or its ancestors, never the action itself, with depths non-increasing |
| RouteActionSpec.ReversedDepths | src/RouteTree/RouteAction.php:384 | reversing a nearest-first list gives a root-first one |
| RouteActionSpec.RootLineAncestors | src/RouteTree/RouteAction.php:377-387 | the root line holds only actions of the node or its ancestors and never the action itself |
| RouteActionSpec.RootLineRootFirst | src/RouteTree/RouteAction.php:377-387 | the root line is root first: depths never shrink along it |
| RouteActionSpec.RootLineEndsWithParent | src/RouteTree/RouteAction.php:377-428 | the root line ends with the nearest same-node parent action when the table names one |
| RouteActionSpec.Classify | src/RouteTree/RouteAction.php:326-342 | controller exactly for a string with `@` not first; view exactly for a two-entry array with `view` and `data` set; redirect exactly for a two-entry array with `redirect` and `status` set that is no view; a handler exactly for a closure |
| RouteActionSpec.ClassifyString | src/RouteTree/RouteAction.php:329-331 | a string is a controller reference exactly when it has `@` not in first position |
| RouteActionSpec.SetActionKeepsEarlierKind | src/RouteTree/RouteAction.php:326-342 | a view set after a controller leaves the controller set as well |
| RouteActions.RouteAction.constructor | src/RouteTree/RouteAction.php:104-110 | a new action has the verb and node, no name, empty lists, and the handler `setAction` picks for its argument |
| RouteActions.RouteAction.GetName | src/RouteTree/RouteAction.php:126-132 | the explicit name when one is set, else the HTTP verb; `Name` makes it read back |
| RouteActions.RouteAction.Name | src/RouteTree/RouteAction.php:117-119 | the explicit name is set, and `getName()` then reads it |
| RouteActions.RouteAction.Middleware | src/RouteTree/RouteAction.php:215-218 | the name reads the new parameters, every other name is unchanged, and names stay unique |
| RouteActions.RouteAction.SkipMiddleware | src/RouteTree/RouteAction.php:226-231 | the skip list becomes the old list with the name appended unless present, and stays duplicate-free |
| RouteActions.RouteAction.SetPathSuffix | src/RouteTree/RouteAction.php:239-243 | only the suffix field changes |
| RouteActions.RouteAction.SetAction | src/RouteTree/RouteAction.php:326-342 | only the fields of the recognised kind are written, as `Classify` says; other kinds are kept |
| RouteActions.RouteAction.SetClosure | src/RouteTree/RouteAction.php:436-440 | only the closure is replaced |
| RouteActions.RouteAction.GenerateRouteName | src/RouteTree/RouteAction.php:669-683 | the name starts with the locale, and locale, node id and `getName()` are read back from it when locale and name hold no dot |
| RouteActions.RouteAction.GenerateUri | src/RouteTree/RouteAction.php:782-791 | the URI is the node's path for the locale, whatever the suffix, and is recorded for that locale only |
| RouteActions.RouteAction.GetPathParameters | src/RouteTree/RouteAction.php:558-574 | the loop returns the parameters of the recorded path |
| RouteActions.RouteAction.FillParameterArray | src/RouteTree/RouteAction.php:695-703 | the loop leaves the still-unfilled names in order and the target filled as specified |
| RouteActions.RouteAction.AutoFillPathParameters | src/RouteTree/RouteAction.php:516-549 | the method computes the two-pass auto-fill of the recorded path's parameters |
| RouteActions.RouteAction.CompileMiddleware | src/RouteTree/RouteAction.php:622-648 | the two loops compute the compiled middleware of the node's and the action's entries |
| RouteActions.KeepUnskipped | src/RouteTree/RouteAction.php:626-631 | the first loop keeps exactly the node's unskipped entries, in order |
| RouteActions.CompileEntries | src/RouteTree/RouteAction.php:637-645 | the second loop writes each entry as `name` or `name:p1,p2` |
| RouteActions.RouteAction.CompileParameterRegex | src/RouteTree/RouteAction.php:658-661 | the merged regexes have unique keys, the node's first, and the action's regex wins for a shared parameter |
| RouteActions.RouteAction.GenerateRoutes | src/RouteTree/RouteAction.php:582-615 | one route per locale, in order, each with route name, node path, compiled middleware and merged regexes; the locales' paths are recorded and other recorded paths kept |
| RouteActions.RouteAction.IsActive | src/RouteTree/RouteAction.php:711-735 | true exactly when this is the current action and every desired parameter is currently set, non-null, to the desired value |
| RouteActions.RouteAction.GetRootLineActions | src/RouteTree/RouteAction.php:377-387 | the method computes the reversed accumulation, or the missing-action failure |
| RouteActions.AccumulateParentActions | src/RouteTree/RouteAction.php:417-428 | pushing onto the list appends the same-node parent chain, or fails on a missing action |
| RouteActions.AccumulateRootLineActions | src/RouteTree/RouteAction.php:394-406 | pushing onto the list appends the whole nearest-first accumulation |
| RouteActions.RouteAction.GetTitle | src/RouteTree/RouteAction.php:262-279 | title data, processed, decides when present; without title data and without a default title the node's title is used |
| RouteActions.RouteAction.GetNavTitle | src/RouteTree/RouteAction.php:288-317 | nav-title data, processed, decides when present; else a default nav title, evaluated, decides |
| RouteActions.DefaultTitles | src/RouteTree/RouteAction.php:139-279 | without title data: `index` gets the node's title, `show` the title, `: ` and the active value, `create` and `edit` their translations, the others the node's title |
| RouteActions.DefaultNavTitles | src/RouteTree/RouteAction.php:139-317 | without nav-title data: `index` gets the node's nav title, `show` the active value, `create` and `edit` their translations, the others the title data or else the node's nav title |
| RouteActions.NavTitleSkipsDefaultTitle | src/RouteTree/RouteAction.php:288-317 | `getNavTitle` equals a four-tier ladder: nav-title data, default nav title, title data, node nav title |
| RouteActions.NavTitleFallsBackToTitle | src/RouteTree/RouteAction.php:288-317 | with no nav-title data and no default nav title: the title when title data exists, else the node's nav title |
| RouteActions.UnconfiguredTitle | src/RouteTree/RouteAction.php:262-317 | an action the table lacks (an unnamed one too) gets its title data or the node's titles, never a table default |
| CanHaveSegments.ApplySegments | src/RouteTree/Traits/CanHaveSegments.php:34-51 | each configured locale holds what the argument gives it; every other locale keeps its segment |
| CanHaveSegments.TextForAllLocales | src/RouteTree/Traits/CanHaveSegments.php:44-46 | a string is stored for every configured locale |
| CanHaveSegments.MappingOnlyItsLocales | src/RouteTree/Traits/CanHaveSegments.php:41-43 | a mapping writes only the configured locales it has; others keep their segments |
| CanHaveSegments.OtherChangesNothing | src/RouteTree/Traits/CanHaveSegments.php:38-48 | any other argument leaves segments and parameter unchanged |
| CanHaveSegments.FirstParameterWins | src/RouteTree/Traits/CanHaveSegments.php:95-99 | once the parameter is set, no segment changes it |
| CanHaveSegments.UnbracedKeepsParameter | src/RouteTree/Traits/CanHaveSegments.php:95 | segments without the `{...}` form never change the parameter |
| CanHaveSegments.BracedSetsParameter | src/RouteTree/Traits/CanHaveSegments.php:95-99 | a braced segment for a configured locale leaves a parameter set when the owner takes one |
| CanHaveSegments.FirstBracedSegmentNamesParameter | src/RouteTree/Traits/CanHaveSegments.php:34-51 | with no parameter yet, the parameter becomes the brace-stripped segment of the first configured locale whose segment is braced |
| CanHaveSegments.SegmentOwner.constructor | src/RouteTree/Traits/CanHaveSegments.php:24 | a new owner has no segments and no parameter |
| CanHaveSegments.SegmentOwner.SetSegmentForLanguage | src/RouteTree/Traits/CanHaveSegments.php:89-101 | afterwards `getSegment` reads the segment and `hasSegment` holds, other locales are unchanged, and the state is `SetFor` of the old one |
| CanHaveSegments.SegmentOwner.Segment | src/RouteTree/Traits/CanHaveSegments.php:34-51 | the loop over the locales leaves the state `Apply` describes |
| CanHaveSegments.SegmentOwner.GetSegment | src/RouteTree/Traits/CanHaveSegments.php:70-81 | a locale reads a segment exactly when one was stored, and `null` otherwise |
| CanHaveSegments.SegmentOwner.HasSegment | src/RouteTree/Traits/CanHaveSegments.php:59-62 | true exactly when a segment is stored for the locale; `SetSegmentForLanguage` makes it true |
| RouteResources.GenerateRouteId | src/RouteTree/Http/Resources/Route.php:59-66 | the id starts with the route name; it is the name when the keys are null or empty, else name, `:`, comma-joined keys in order |
| RouteResources.RouteIdRoundTrip | src/RouteTree/Http/Resources/Route.php:59-66 | with no `:` in the name and no `,` in a key, name and keys are read back from the id |
| RouteResources.NamePartOfAnnotated | src/RouteTree/Http/Resources/Route.php:61-63 | the route name is read back from the id whatever the keys |
| RouteResources.RouteIdsDistinct | src/RouteTree/Http/Resources/Route.php:59-66 | routes with different colon-free names get different ids |
| RouteResources.ToArray | src/RouteTree/Http/Resources/Route.php:28-38 | type `routes`, id from `generateRouteId`, and the node, action, uri, locale and methods copied unchanged |
| ResourceExamples.PhotoRouteNames | tests/Feature/ResourceTest.php:21 | `de.photos.index`, `en.photos.show`, a root-node name, and reading `de.photos.index` back |
| ResourceExamples.EditPathSegments | tests/Feature/ResourceTest.php:125 | `de/photos/{photo}/bearbeiten` splits into its four segments |
| ResourceExamples.EditSegmentParameters | tests/Feature/ResourceTest.php:125 | of those segments only `{photo}` is a parameter |
| ResourceExamples.EditPathParameters | tests/Feature/ResourceTest.php:125 | the edit path's parameters are `["photo"]` |
| ResourceExamples.ShowTitles | tests/Feature/ResourceTest.php:225-241 | the show action's title is `Fotos: {photo}` and its nav title `{photo}` |
| ResourceExamples.DestroyTitles | tests/Feature/ResourceTest.php:191-207 | the destroy action's title and nav title are the node's `Fotos` |
| ResourceExamples.CommentEditRootLine | src/RouteTree/RouteAction.php:366-374 | the documented breadcrumbs of `user.comment`'s edit action: root, user index, user show, comment index, comment show |
| ResourceExamples.MissingParentAction | src/RouteTree/RouteAction.php:421-425 | a node lacking `index` cannot build its show action's root line |
| ResourceExamples.PhotoAutoFill | src/RouteTree/RouteAction.php:516-549 | the active value fills `photo`, a supplied one wins, a null one leaves it missing, with the exact exception message |
| ResourceExamples.MiddlewareExample | src/RouteTree/RouteAction.php:622-648 | skipping `auth` and re-adding it with `admin` gives `throttle:60,1` then `auth:admin` |
| ResourceExamples.RouteIds | src/RouteTree/Http/Resources/Route.php:59-66 | `de.photos.show:1` for one key, the bare name without keys |

## Left out

- Laravel route registration is not modelled: `createRoute` (`Route::view`, `Route::redirect`, `Route::{method}`) and `registerRoute`. They are framework calls. `GenerateRoutes` returns the per-locale values it would register (name, URI, middleware, regexes) instead.
- `RouteNameAlreadyRegisteredException` and the `NodeNotFoundException` of redirects are not modelled. Both arise only inside the registration left out above.
- `getUrl`, `route()`, `config()` and `RouteTree::establishLocale` are not modelled. A locale is always given explicitly.
- `getParametersOfNodeAndParents` and its value translation are not modelled: the active nodes' values are a parameter of `AutoFillPathParameters`. `\Route::current()` and `getCurrentAction()` are parameters of `IsActive`.
- The text that `trans()` and the node's title services produce is left opaque: they are uninterpreted function fields and string fields of `TitleContext`.
- `setAction_OLD` is not modelled. It is unused code.
- `src/helpers.php` is not part of this model. It only wraps the service container, the URL builder and the translator.
- `RouteNode`, `RouteTree`, `LanguageMapping` and `CanHaveParameterRegex` are not part of this model; `RouteNode` is an abstract value. `getAction(name)` on a missing name is modelled as `ActionNotFoundException`. An action found by name is assumed to carry that name in its `name` field.
- The `where` setter of `CanHaveParameterRegex` is not modelled, so `wheres` starts empty and nothing in the model writes it.
- The `payload`, `title` and `navTitle` fields of `Route::toArray` are left out. They call into objects outside this model.
- RouteActions.RouteAction.SetAction: takes only well-typed arguments (`WellTyped`). PHP's scalar coercion in `setView(string, array)` and `setRedirect(string, int)`, and the `TypeError` on other values, are not modelled.
- RouteActions.RouteAction.IsActive: values are strings or `null`. PHP's strict `!==` between values of different types is therefore not modelled.
- Numeric-string array keys are not modelled. PHP turns them into integer keys, which `array_merge` renumbers; the model keeps every key a string.
- RouteActions.RouteAction.SkipMiddleware: compares names exactly. `array_search` at `src/RouteTree/RouteAction.php:227` compares loosely, and PHP 8 compares numeric strings numerically (`"1" == "01"`).
- RouteActions.KeepUnskipped: compares names exactly, where the `array_search` at `src/RouteTree/RouteAction.php:628` compares loosely in the same way.
- RouteActionSpec.AutoFill: returns the filled parameters as an unordered `map`. The `$return` array of `autoFillPathParameters` (`src/RouteTree/RouteAction.php:516-549`) also has an order: the names filled from the supplied values come first, then those filled from the active nodes, each group in path order.
- CanHaveSegments.SegmentOwner.GetSegment: the branch for a `$segments` field holding a single string is not modelled. Nothing in this code stores a string there.
- CanHaveSegments.SegmentOwner.SetSegmentForLanguage: the `parameter()` method of the owner is modelled only as storing the name it is given.
- RouteActions.RouteAction.GenerateUri: requires the node to hold a path for the locale. `RouteNode::getPath` is not part of this model; the node builds a path for every configured locale, and `GenerateRoutes` asks only for those.
