/**
 * `RouteAction`: one action (index, show, a plain get, ...) of a route node.
 * The setters update the object's fields in place; route generation,
 * path-parameter extraction, parameter auto-fill, middleware compilation,
 * `isActive` and the root-line accumulation are methods proved against the
 * functions of module RouteActionSpec; the title ladders are functions of
 * the object's `name` field.
 */
module RouteActions {
  import opened Wrappers
  import opened PhpBuiltins
  import opened OrderedMaps
  import opened ActionConfigs
  import opened RouteNodes
  import opened AnnotatedNames
  import opened RouteActionSpec

  /** The values `generateRoutes` hands to the router for one locale. */
  datatype GeneratedRoute = GeneratedRoute(
    locale: string,
    name: string,
    uri: string,
    middleware: OrderedMap<string>,
    wheres: OrderedMap<string>)

  /** A desired parameter of `isActive` matches when the current route sets it, non-null, to exactly that value. */
  predicate ParameterMatches(current: ParameterValues, desired: (string, Option<string>))
  {
    desired.0 in current && current[desired.0].Some? && current[desired.0] == desired.1
  }

  class RouteAction {
    /** The node the action belongs to. */
    const routeNode: RouteNode
    /** The HTTP verb (`$method`). */
    const verb: string
    /** The explicit name; `None` until `name()` is called. */
    var name: Option<string>
    /** What the action does: controller method, view, redirect or closure. */
    var handlers: Handlers
    /** Stored by `setPathSuffix`; route generation never reads it. */
    var pathSuffix: Option<string>
    /** The path each locale's route was generated with. */
    var paths: map<string, string>
    /** The action's own middleware, name to parameters. */
    var middleware: OrderedMap<seq<string>>
    /** Inherited middleware names this action skips. */
    var skipMiddleware: seq<string>
    /** The action's own parameter regexes (written by `CanHaveParameterRegex`). */
    var wheres: OrderedMap<string>

    /** The node's and the action's PHP arrays hold each key once, and so does the skip list. */
    ghost predicate Valid()
      reads this`middleware, this`skipMiddleware, this`wheres
    {
      OrderedMaps.Valid(routeNode.middleware) && OrderedMaps.Valid(routeNode.wheres) &&
      OrderedMaps.Valid(middleware) && Distinct(skipMiddleware) && OrderedMaps.Valid(wheres)
    }

    /** `__construct(method, action, routeNode)`: an unnamed action whose handler `setAction` picks. */
    constructor(httpVerb: string, action: ActionArg, node: RouteNode)
      requires WellTyped(action)
      requires OrderedMaps.Valid(node.middleware) && OrderedMaps.Valid(node.wheres)
      ensures Valid()
      ensures routeNode == node && verb == httpVerb && name == None
      ensures handlers == WithAction(NoHandlers, Classify(action))
      ensures pathSuffix == None && paths == map[] && middleware == [] && skipMiddleware == [] && wheres == []
    {
      routeNode := node;
      verb := httpVerb;
      name := None;
      handlers := WithAction(NoHandlers, Classify(action));
      pathSuffix := None;
      paths := map[];
      middleware := [];
      skipMiddleware := [];
      wheres := [];
    }

    /** `name(n)`. */
    method Name(n: string)
      requires Valid()
      modifies this`name
      ensures Valid()
      ensures name == Some(n) && GetName() == n
    {
      name := Some(n);
    }

    /** `getName()`: the explicit name, else the HTTP verb. */
    function GetName(): (r: string)
      reads this`name
      ensures name.Some? ==> r == name.value
      ensures name.None? ==> r == verb
    {
      if name.Some? then name.value else verb
    }

    /** `middleware(n, ps)`: assigns the parameters, replacing earlier ones for the same name in place. */
    method Middleware(n: string, parameters: seq<string>)
      requires Valid()
      modifies this`middleware
      ensures Valid()
      ensures middleware == Put(old(middleware), n, parameters)
      ensures Get(middleware, n) == Some(parameters)
      ensures forall k :: k != n ==> Get(middleware, k) == Get(old(middleware), k)
    {
      PutValid(middleware, n, parameters);
      forall k {
        GetPut(middleware, n, parameters, k);
      }
      middleware := Put(middleware, n, parameters);
    }

    /** `skipMiddleware(n)`: lists the name once, however often it is skipped. */
    method SkipMiddleware(n: string)
      requires Valid()
      modifies this`skipMiddleware
      ensures Valid()
      ensures skipMiddleware == WithSkip(old(skipMiddleware), n)
    {
      WithSkipIdempotent(skipMiddleware, n);
      if n !in skipMiddleware {
        skipMiddleware := skipMiddleware + [n];
      }
    }

    /** `setPathSuffix(s)`: stored only. */
    method SetPathSuffix(suffix: Option<string>)
      modifies this`pathSuffix
      ensures pathSuffix == suffix
    {
      pathSuffix := suffix;
    }

    /** `setAction(arg)`: writes the fields of the recognised kind and leaves the others as they were. */
    method SetAction(arg: ActionArg)
      requires WellTyped(arg)
      modifies this`handlers
      ensures handlers == WithAction(old(handlers), Classify(arg))
    {
      match arg
      case StringArg(s) =>
        var at := IndexOf(s, '@');
        if at.Some? && at.value > 0 {
          handlers := handlers.(uses := Some(s));
        }
      case ArrayArg(e) =>
        if |e| == 2 && IsSetEntry(e, "view") && IsSetEntry(e, "data") {
          handlers := handlers.(view := Some(e["view"].text), viewData := Some(e["data"].items));
        } else if |e| == 2 && IsSetEntry(e, "redirect") && IsSetEntry(e, "status") {
          handlers := handlers.(redirect := Some(e["redirect"].text), redirectStatus := Some(e["status"].number));
        }
      case ClosureArg(c) =>
        handlers := handlers.(closure := Some(c));
      case OtherArg =>
    }

    /** `setClosure(c)`. */
    method SetClosure(c: Closure)
      modifies this`handlers
      ensures handlers == old(handlers).(closure := Some(c))
    {
      handlers := handlers.(closure := Some(c));
    }

    /**
     * `generateRouteName(locale)`: the locale, the node id unless it is empty, and `getName()`,
     * joined by dots; as long as locale and name hold no dot, all three can be read back from it.
     */
    function GenerateRouteName(locale: string): (r: string)
      reads this`name
      ensures locale <= r
      ensures '.' !in locale && '.' !in GetName() ==> ParseRouteName(r) == (locale, routeNode.id, GetName())
    {
      var r := RouteName(locale, routeNode.id, GetName());
      assert '.' !in locale && '.' !in GetName() ==> ParseRouteName(r) == (locale, routeNode.id, GetName()) by {
        if '.' !in locale && '.' !in GetName() {
          RouteNameRoundTrip(locale, routeNode.id, GetName());
        }
      }
      r
    }

    /** `generateUri(locale)`: the node's path, recorded for the locale; the path suffix plays no part. */
    method GenerateUri(locale: string) returns (uri: string)
      requires locale in routeNode.paths
      modifies this`paths
      ensures uri == routeNode.paths[locale]
      ensures paths == old(paths)[locale := uri]
    {
      uri := routeNode.paths[locale];
      paths := paths[locale := uri];
    }

    /** `$this->paths[$locale]`, where PHP reads a missing entry as `null`, which `explode` treats as `""`. */
    function PathOf(locale: string): string
      reads this`paths
    {
      if locale in paths then paths[locale] else ""
    }

    /** `getPathParameters(locale)`: the brace-stripped `{...}` segments of the generated path, left to right. */
    method GetPathParameters(locale: string) returns (parameters: seq<string>)
      ensures parameters == PathParameters(PathOf(locale))
    {
      var segments := Split(PathOf(locale), '/');
      parameters := [];
      for i := 0 to |segments|
        invariant parameters == BracedParameters(segments[..i])
      {
        var segment := segments[i];
        assert segments[..i + 1][..i] == segments[..i];
        if |segment| > 0 && segment[0] == '{' && segment[|segment| - 1] == '}' {
          parameters := parameters + [StripBraces(segment)];
        }
      }
      assert segments[..|segments|] == segments;
    }

    /**
     * `fillParameterArray(source, required, target)`: copies every required name the source sets
     * into the target and drops it from the required list, which keeps the rest in order.
     */
    method FillParameterArray(source: Option<ParameterValues>, required: seq<string>, target: map<string, string>)
      returns (stillRequired: seq<string>, filled: map<string, string>)
      ensures stillRequired == Unfilled(source, required)
      ensures filled == Filled(source, required, target)
    {
      stillRequired := [];
      filled := target;
      for i := 0 to |required|
        invariant stillRequired == Unfilled(source, required[..i])
        invariant filled == Filled(source, required[..i], target)
      {
        var parameter := required[i];
        assert required[..i + 1][..i] == required[..i];
        if source.Some? && parameter in source.value && source.value[parameter].Some? {
          filled := filled[parameter := source.value[parameter].value];
        } else {
          stillRequired := stillRequired + [parameter];
        }
      }
      assert required[..|required|] == required;
    }

    /**
     * `autoFillPathParameters(parameters, locale)`, with the active nodes' parameter values
     * (`getParametersOfNodeAndParents`) handed in as `current`.
     */
    method AutoFillPathParameters(parameters: Option<ParameterValues>, locale: string, current: ParameterValues)
      returns (r: Result<map<string, string>, UrlParametersMissingException>)
      ensures r == AutoFill(PathParameters(PathOf(locale)), parameters, current)
    {
      var filled: map<string, string> := map[];
      var required := GetPathParameters(locale);
      if |required| > 0 {
        required, filled := FillParameterArray(parameters, required, filled);
        if |required| > 0 {
          required, filled := FillParameterArray(Some(current), required, filled);
          if |required| > 0 {
            return Failure(UrlParametersMissing(required));
          }
        }
      }
      return Success(filled);
    }

    /**
     * `compileMiddleware()`: the node's middleware minus the skipped names, merged with the
     * action's own, each entry written as `name` or `name:p1,p2`.
     */
    method CompileMiddleware() returns (compiled: OrderedMap<string>)
      requires Valid()
      ensures compiled == CompiledMiddleware(routeNode.middleware, skipMiddleware, middleware)
    {
      var kept := KeepUnskipped(routeNode.middleware, skipMiddleware);
      var merged := Merge(kept, middleware);
      WithoutKeeps(routeNode.middleware, skipMiddleware);
      MergeOverlays(kept, middleware);
      compiled := [];
      if |merged| > 0 {
        compiled := CompileEntries(merged);
      }
    }

    /** `compileParameterRegex()`: the node's regexes overlaid with the action's own. */
    function CompileParameterRegex(): (r: OrderedMap<string>)
      requires Valid()
      reads this`middleware, this`skipMiddleware, this`wheres
      ensures OrderedMaps.Valid(r)
      ensures Keys(r) == Keys(routeNode.wheres) + KeysNotIn(Keys(wheres), Keys(routeNode.wheres))
      ensures forall k :: Get(r, k) == if k in Keys(wheres) then Get(wheres, k) else Get(routeNode.wheres, k)
    {
      MergeOverlays(routeNode.wheres, wheres);
      Merge(routeNode.wheres, wheres)
    }

    /** What `generateRoutes` hands to the router for one locale. */
    function RouteFor(locale: string): GeneratedRoute
      requires Valid() && locale in routeNode.paths
      reads this`name, this`middleware, this`skipMiddleware, this`wheres
    {
      GeneratedRoute(locale, GenerateRouteName(locale), routeNode.paths[locale],
        CompiledMiddleware(routeNode.middleware, skipMiddleware, middleware), CompileParameterRegex())
    }

    /**
     * `generateRoutes()` over the configured locales: one route per locale, in order, each with
     * the route name, the node's path, the compiled middleware and the merged regexes; each
     * locale's path is recorded and every other recorded path is kept.
     */
    method GenerateRoutes(locales: seq<string>) returns (routes: seq<GeneratedRoute>)
      requires Valid()
      requires forall l :: l in locales ==> l in routeNode.paths
      modifies this`paths
      ensures Valid()
      ensures |routes| == |locales|
      ensures forall i :: 0 <= i < |locales| ==> routes[i] == RouteFor(locales[i])
      ensures forall l :: l in paths <==> l in old(paths) || l in locales
      ensures forall l :: l in locales ==> paths[l] == routeNode.paths[l]
      ensures forall l :: l in old(paths) && l !in locales ==> paths[l] == old(paths)[l]
    {
      var compiledMiddleware := CompileMiddleware();
      var parameterRegex := CompileParameterRegex();
      ghost var actionName := GetName();
      routes := [];
      ghost var done: set<string> := {};
      for i := 0 to |locales|
        invariant |routes| == i
        invariant forall j :: 0 <= j < i ==> routes[j] == GeneratedRoute(locales[j],
          RouteName(locales[j], routeNode.id, actionName), routeNode.paths[locales[j]], compiledMiddleware, parameterRegex)
        invariant forall j :: 0 <= j < i ==> locales[j] in done
        invariant forall l :: l in done ==> l in locales
        invariant forall l :: l in paths <==> l in old(paths) || l in done
        invariant forall l :: l in done ==> paths[l] == routeNode.paths[l]
        invariant forall l :: l in old(paths) && l !in done ==> paths[l] == old(paths)[l]
      {
        var locale := locales[i];
        var uri := GenerateUri(locale);
        done := done + {locale};
        routes := routes + [GeneratedRoute(locale, GenerateRouteName(locale), uri, compiledMiddleware, parameterRegex)];
      }
    }

    /**
     * `isActive(parameters)`, with the current action and the current route's parameters handed
     * in: this must be the current action, and every desired parameter must be set to its value.
     */
    method IsActive(currentAction: RouteAction?, currentParameters: ParameterValues,
                    parameters: Option<seq<(string, Option<string>)>>) returns (active: bool)
      ensures active <==> (currentAction == this &&
        (parameters.None? || forall j :: 0 <= j < |parameters.value| ==> ParameterMatches(currentParameters, parameters.value[j])))
    {
      if currentAction != this {
        return false;
      }
      if parameters.None? {
        return true;
      }
      var desired := parameters.value;
      var allParametersSet := true;
      for i := 0 to |desired|
        invariant allParametersSet <==> forall j :: 0 <= j < i ==> ParameterMatches(currentParameters, desired[j])
      {
        var (desiredName, desiredValue) := desired[i];
        if !(desiredName in currentParameters && currentParameters[desiredName].Some?) ||
           currentParameters[desiredName] != desiredValue {
          allParametersSet := false;
        }
      }
      return allParametersSet;
    }

    /** `getRootLineActions()`: the accumulated actions reversed, root first. */
    method GetRootLineActions() returns (r: Result<seq<ActionRef>, ActionNotFoundException>)
      ensures r == RootLine(ActionRef(routeNode, name))
    {
      var accumulated := AccumulateRootLineActions(ActionRef(routeNode, name), []);
      if accumulated.Success? {
        assert [] + Accumulated(ActionRef(routeNode, name)).value == Accumulated(ActionRef(routeNode, name)).value;
      }
      match accumulated
      case Failure(e) => r := Failure(e);
      case Success(rootLineActions) => r := Success(Reverse(rootLineActions));
    }

    /** `getTitle(parameters, locale)`: explicit title data, else the table's default title, else the node's title. */
    function GetTitle(ctx: TitleContext, parameters: TitleParameters, locale: Option<string>): (r: string)
      reads this`name
      ensures ctx.data("title", parameters, locale, name).Some? ==>
        r == ctx.process(parameters, locale, ctx.data("title", parameters, locale, name).value)
      ensures ctx.data("title", parameters, locale, name).None? && DefaultTitleOf(name).None? ==> r == ctx.nodeTitle
    {
      var title := ctx.data("title", parameters, locale, name);
      if title.Some? then ctx.process(parameters, locale, title.value)
      else if DefaultTitleOf(name).Some? then Evaluate(DefaultTitleOf(name).value, ctx)
      else ctx.nodeTitle
    }

    /**
     * `getNavTitle(parameters, locale)`: explicit nav-title data, the table's default nav title,
     * explicit title data, the table's default title, else the node's nav title.
     */
    function GetNavTitle(ctx: TitleContext, parameters: TitleParameters, locale: Option<string>): (r: string)
      reads this`name
      ensures ctx.data("navTitle", parameters, locale, name).Some? ==>
        r == ctx.process(parameters, locale, ctx.data("navTitle", parameters, locale, name).value)
      ensures ctx.data("navTitle", parameters, locale, name).None? && DefaultNavTitleOf(name).Some? ==>
        r == Evaluate(DefaultNavTitleOf(name).value, ctx)
    {
      var navTitle := ctx.data("navTitle", parameters, locale, name);
      if navTitle.Some? then ctx.process(parameters, locale, navTitle.value)
      else if DefaultNavTitleOf(name).Some? then Evaluate(DefaultNavTitleOf(name).value, ctx)
      else
        var title := ctx.data("title", parameters, locale, name);
        if title.Some? then ctx.process(parameters, locale, title.value)
        else if DefaultTitleOf(name).Some? then Evaluate(DefaultTitleOf(name).value, ctx)
        else ctx.nodeNavTitle
    }
  }

  /**
   * The navigation title as four tiers: explicit nav-title data, the table's default nav title,
   * explicit title data, the node's nav title.
   */
  function NavTitleReference(ctx: TitleContext, name: Option<string>, parameters: TitleParameters, locale: Option<string>): string
  {
    match ctx.data("navTitle", parameters, locale, name)
    case Some(t) => ctx.process(parameters, locale, t)
    case None =>
      match DefaultNavTitleOf(name)
      case Some(recipe) => Evaluate(recipe, ctx)
      case None =>
        match ctx.data("title", parameters, locale, name)
        case Some(t) => ctx.process(parameters, locale, t)
        case None => ctx.nodeNavTitle
  }

  /**
   * With the shipped table the default-title tier of `getNavTitle` never decides: every action
   * with a default title has a default nav title, which an earlier tier already used.
   */
  lemma NavTitleSkipsDefaultTitle(a: RouteAction, ctx: TitleContext, parameters: TitleParameters, locale: Option<string>)
    ensures a.GetNavTitle(ctx, parameters, locale) == NavTitleReference(ctx, a.name, parameters, locale)
  {
    DefaultTitleImpliesDefaultNavTitle(a.name);
  }

  /**
   * Without nav-title data and without a default nav title, an action's navigation title is its
   * title whenever title data exists, and the node's navigation title otherwise.
   */
  lemma NavTitleFallsBackToTitle(a: RouteAction, ctx: TitleContext, parameters: TitleParameters, locale: Option<string>)
    requires ctx.data("navTitle", parameters, locale, a.name).None?
    requires DefaultNavTitleOf(a.name).None?
    ensures ctx.data("title", parameters, locale, a.name).Some? ==>
      a.GetNavTitle(ctx, parameters, locale) == a.GetTitle(ctx, parameters, locale)
    ensures ctx.data("title", parameters, locale, a.name).None? ==>
      a.GetNavTitle(ctx, parameters, locale) == ctx.nodeNavTitle
  {
    NavTitleSkipsDefaultTitle(a, ctx, parameters, locale);
  }

  /**
   * The title of an action the table does not know (an unnamed one included) is its title data,
   * processed, or else the node's title: the table's defaults key on the `name` field, not on
   * `getName()`.
   */
  lemma UnconfiguredTitle(a: RouteAction, ctx: TitleContext, parameters: TitleParameters, locale: Option<string>)
    requires ConfigFor(a.name).None?
    ensures a.GetTitle(ctx, parameters, locale) ==
      match ctx.data("title", parameters, locale, a.name)
      case Some(t) => ctx.process(parameters, locale, t)
      case None => ctx.nodeTitle
    ensures a.GetNavTitle(ctx, parameters, locale) ==
      match ctx.data("navTitle", parameters, locale, a.name)
      case Some(t) => ctx.process(parameters, locale, t)
      case None =>
        match ctx.data("title", parameters, locale, a.name)
        case Some(t) => ctx.process(parameters, locale, t)
        case None => ctx.nodeNavTitle
  {
  }

  /**
   * Without title data a configured action takes the table's default title: the node's title for
   * `index`, the title and the active value for `show`, a translation for `create` and `edit`; the
   * actions without a default title (`store`, `update`, `destroy`, `get`, `post`) take the node's title.
   */
  lemma DefaultTitles(a: RouteAction, ctx: TitleContext, parameters: TitleParameters, locale: Option<string>)
    requires ctx.data("title", parameters, locale, a.name).None?
    requires ConfigFor(a.name).Some?
    ensures a.name == Some("index") ==> a.GetTitle(ctx, parameters, locale) == ctx.nodeTitle
    ensures a.name == Some("show") ==> a.GetTitle(ctx, parameters, locale) == ctx.nodeTitle + ": " + ctx.activeValue
    ensures a.name == Some("create") ==>
      a.GetTitle(ctx, parameters, locale) == ctx.translate(CreateTitleKey, map["resource" := ctx.nodeTitle])
    ensures a.name == Some("edit") ==>
      a.GetTitle(ctx, parameters, locale) == ctx.translate(EditTitleKey, map["item" := ctx.activeValue])
    ensures a.name.value in ["store", "update", "destroy", "get", "post"] ==> a.GetTitle(ctx, parameters, locale) == ctx.nodeTitle
  {
    var one: seq<(string, NodeText)> := [("resource", NodeTitleText)];
    assert one[..0] == [];
    assert Replacements(one, ctx) == map["resource" := ctx.nodeTitle];
    var two: seq<(string, NodeText)> := [("item", ActiveValueText)];
    assert two[..0] == [];
    assert Replacements(two, ctx) == map["item" := ctx.activeValue];
  }

  /**
   * Without nav-title data a configured action takes the table's default navigation title: the
   * node's navigation title for `index`, the active value for `show`, a translation for `create` and
   * `edit`; the others fall back to the title data, else the node's navigation title.
   */
  lemma DefaultNavTitles(a: RouteAction, ctx: TitleContext, parameters: TitleParameters, locale: Option<string>)
    requires ctx.data("navTitle", parameters, locale, a.name).None?
    requires ConfigFor(a.name).Some?
    ensures a.name == Some("index") ==> a.GetNavTitle(ctx, parameters, locale) == ctx.nodeNavTitle
    ensures a.name == Some("show") ==> a.GetNavTitle(ctx, parameters, locale) == ctx.activeValue
    ensures a.name == Some("create") ==> a.GetNavTitle(ctx, parameters, locale) == ctx.translate(CreateNavTitleKey, map[])
    ensures a.name == Some("edit") ==> a.GetNavTitle(ctx, parameters, locale) == ctx.translate(EditNavTitleKey, map[])
    ensures a.name.value in ["store", "update", "destroy", "get", "post"] ==>
      a.GetNavTitle(ctx, parameters, locale) ==
        match ctx.data("title", parameters, locale, a.name)
        case Some(t) => ctx.process(parameters, locale, t)
        case None => ctx.nodeNavTitle
  {
  }

  /** Appending an accumulated list to what was there before (the by-reference array of the source). */
  function Extend(acc: seq<ActionRef>, r: Result<seq<ActionRef>, ActionNotFoundException>)
    : Result<seq<ActionRef>, ActionNotFoundException>
  {
    match r
    case Failure(e) => Failure(e)
    case Success(s) => Success(acc + s)
  }

  /** `accumulateParentActions(&list)`: pushes the same-node parent actions, nearest first. */
  method AccumulateParentActions(a: ActionRef, acc: seq<ActionRef>) returns (r: Result<seq<ActionRef>, ActionNotFoundException>)
    ensures r == Extend(acc, ParentActions(a))
    decreases Rank(a.name)
  {
    var parentName := ParentActionOf(a.name);
    if parentName.None? {
      assert acc + [] == acc;
      return Success(acc);
    }
    if parentName.value !in a.node.actions {
      return Failure(ActionNotFound(a.node.id, parentName.value));
    }
    ParentRankDecreases(a.name);
    var parentAction := ActionRef(a.node, parentName);
    r := AccumulateParentActions(parentAction, acc + [parentAction]);
    if ParentActions(parentAction).Success? {
      assert acc + [parentAction] + ParentActions(parentAction).value == acc + ([parentAction] + ParentActions(parentAction).value);
    }
  }

  /**
   * `accumulateRootLineActions(&list)`: pushes the same-node parents, then the parent node's
   * lowest root-line action followed by its own accumulation.
   */
  method AccumulateRootLineActions(a: ActionRef, acc: seq<ActionRef>) returns (r: Result<seq<ActionRef>, ActionNotFoundException>)
    ensures r == Extend(acc, Accumulated(a))
    decreases a.node
  {
    r := AccumulateParentActions(a, acc);
    if r.Failure? {
      return;
    }
    var own := ParentActions(a).value;
    assert r.value == acc + own;
    if a.node.parent.Some? {
      var mostActive := a.node.parent.value.lowest;
      if mostActive.RootLineAction? {
        var up := ActionRef(a.node.parent.value, mostActive.name);
        var before := r.value;
        r := AccumulateRootLineActions(up, before + [up]);
        if Accumulated(up).Success? {
          assert Accumulated(a) == Success(own + [up] + Accumulated(up).value);
          assert before + [up] + Accumulated(up).value == acc + (own + [up] + Accumulated(up).value);
        } else {
          assert Accumulated(a) == Failure(Accumulated(up).error);
        }
      } else {
        assert Accumulated(a) == Success(own);
      }
    } else {
      assert Accumulated(a) == Success(own);
    }
  }

  /** The first loop of `compileMiddleware`: copies the node's entries whose name is not skipped. */
  method KeepUnskipped(nodeMiddleware: OrderedMap<seq<string>>, skip: seq<string>) returns (kept: OrderedMap<seq<string>>)
    requires OrderedMaps.Valid(nodeMiddleware)
    ensures kept == Without(nodeMiddleware, skip)
  {
    kept := [];
    for i := 0 to |nodeMiddleware|
      invariant kept == Without(nodeMiddleware[..i], skip)
    {
      var entry := nodeMiddleware[i];
      assert nodeMiddleware[..i + 1][..i] == nodeMiddleware[..i];
      if entry.0 !in skip {
        FreshKeyAppends(nodeMiddleware, i, skip);
        kept := Put(kept, entry.0, entry.1);
      }
    }
    assert nodeMiddleware[..|nodeMiddleware|] == nodeMiddleware;
  }

  /** The second loop of `compileMiddleware`: writes each entry as `name` or `name:p1,p2`. */
  method CompileEntries(merged: OrderedMap<seq<string>>) returns (compiled: OrderedMap<string>)
    requires OrderedMaps.Valid(merged)
    ensures compiled == Transform(merged, Annotate)
  {
    compiled := [];
    for i := 0 to |merged|
      invariant compiled == Transform(merged[..i], Annotate)
    {
      var entryName := merged[i].0;
      var text := entryName;
      if |merged[i].1| > 0 {
        text := text + ":" + Join(merged[i].1, ',');
      }
      assert text == Annotate(entryName, merged[i].1);
      assert Keys(compiled) == Keys(merged)[..i];
      assert entryName !in Keys(compiled);
      assert Transform(merged[..i + 1], Annotate) == Transform(merged[..i], Annotate) + [(entryName, text)];
      compiled := Put(compiled, entryName, text);
    }
    assert merged[..|merged|] == merged;
  }

  /** An entry of a well-formed array not yet copied cannot already be among the copied keys, so `Put` appends it. */
  lemma FreshKeyAppends(m: OrderedMap<seq<string>>, i: nat, skip: seq<string>)
    requires OrderedMaps.Valid(m) && i < |m|
    ensures Put(Without(m[..i], skip), m[i].0, m[i].1) == Without(m[..i], skip) + [m[i]]
  {
    WithoutKeys(m[..i], skip);
    assert Keys(m[..i]) == Keys(m)[..i];
  }
}
