/**
 * The JSON:API resource of a registered route (`Http\Resources\Route`):
 * its id, the route name optionally followed by `:` and the comma-joined
 * route keys, and the attribute fields copied from the registered route.
 */
module RouteResources {
  import opened Wrappers
  import opened PhpBuiltins
  import opened AnnotatedNames

  /** The registered-route fields the resource reads. */
  datatype RegisteredRoute = RegisteredRoute(
    routeName: string,                // route->getName()
    routeKeys: Option<seq<string>>,   // routeKeys: null, or the key values in order
    nodeId: string,                   // routeNode->getId()
    actionName: string,               // routeAction->getName()
    path: string,
    locale: string,
    methods: seq<string>)

  datatype Attributes = Attributes(node: string, action: string, uri: string, locale: string, methods: seq<string>)

  datatype RouteResource = RouteResource(resourceType: string, id: string, attributes: Attributes)

  /** `generateRouteId()`: the route name, followed by `:` and the keys when there are any. */
  function GenerateRouteId(route: RegisteredRoute): (id: string)
    ensures route.routeName <= id
    ensures (route.routeKeys.None? || |route.routeKeys.value| == 0) ==> id == route.routeName
    ensures route.routeKeys.Some? && |route.routeKeys.value| > 0 ==>
      id == route.routeName + ":" + Join(route.routeKeys.value, ',')
  {
    var keys := if route.routeKeys.Some? then route.routeKeys.value else [];
    AnnotateStartsWithName(route.routeName, keys);
    Annotate(route.routeName, keys)
  }

  /**
   * The id keeps the route name and the keys apart: when the name has no colon and no key a comma,
   * both come back from it, a missing key list reading as an empty one.
   */
  lemma RouteIdRoundTrip(route: RegisteredRoute)
    requires ':' !in route.routeName
    requires route.routeKeys.Some? ==> forall i :: 0 <= i < |route.routeKeys.value| ==> ',' !in route.routeKeys.value[i]
    ensures ParseAnnotated(GenerateRouteId(route)).0 == route.routeName
    ensures route.routeKeys.Some? && |route.routeKeys.value| > 0 ==>
      ParseAnnotated(GenerateRouteId(route)).1 == route.routeKeys.value
    ensures route.routeKeys.None? || |route.routeKeys.value| == 0 ==> ParseAnnotated(GenerateRouteId(route)).1 == []
  {
    var keys := if route.routeKeys.Some? then route.routeKeys.value else [];
    AnnotateRoundTrip(route.routeName, keys);
  }

  /** The fixed fields of `toArray()`: type `routes`, the generated id, and the copied attributes. */
  function ToArray(route: RegisteredRoute): (r: RouteResource)
    ensures r.resourceType == "routes"
    ensures r.id == GenerateRouteId(route)
    ensures r.attributes == Attributes(route.nodeId, route.actionName, route.path, route.locale, route.methods)
  {
    RouteResource("routes", GenerateRouteId(route),
      Attributes(route.nodeId, route.actionName, route.path, route.locale, route.methods))
  }

  /** Two resources of routes with different names, no colon in either, never share an id. */
  lemma RouteIdsDistinct(r1: RegisteredRoute, r2: RegisteredRoute)
    requires ':' !in r1.routeName && ':' !in r2.routeName
    requires r1.routeName != r2.routeName
    ensures ToArray(r1).id != ToArray(r2).id
  {
    var k1 := if r1.routeKeys.Some? then r1.routeKeys.value else [];
    var k2 := if r2.routeKeys.Some? then r2.routeKeys.value else [];
    NamePartOfAnnotated(r1.routeName, k1);
    NamePartOfAnnotated(r2.routeName, k2);
  }

  /** Whatever the items, the name part reads back when the name has no colon. */
  lemma NamePartOfAnnotated(name: string, items: seq<string>)
    requires ':' !in name
    ensures ParseAnnotated(Annotate(name, items)).0 == name
  {
    if |items| > 0 {
      var text := Annotate(name, items);
      assert text[..|name|] == name;
      assert text[|name|] == ':';
      assert IndexOf(text, ':') == Some(|name|);
    }
  }
}
