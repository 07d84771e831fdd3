/**
 * What `RouteAction` computes, stated as functions on values: the route-name
 * encoding, the path parameters of a generated path, the two-pass parameter
 * auto-fill with its missing-parameter failure, the middleware compilation,
 * the breadcrumb root line, and the classification of `setAction`'s
 * argument. The class in module RouteActions is proved against these, and
 * the lemmas here state what the source promises about them.
 */
module RouteActionSpec {
  import opened Wrappers
  import opened PhpBuiltins
  import opened OrderedMaps
  import opened ActionConfigs
  import opened RouteNodes
  import opened AnnotatedNames

  // ---------------------------------------------------------------- route names

  /** `generateRouteName`: the locale, then `.` and the node id unless it is empty, then `.` and the action name. */
  function RouteName(locale: string, nodeId: string, actionName: string): string
  {
    locale + (if |nodeId| > 0 then "." + nodeId else "") + "." + actionName
  }

  /** Reads a route name back: the first dot-separated piece, the middle pieces rejoined, the last piece. */
  function ParseRouteName(routeName: string): (string, string, string)
  {
    var parts := Split(routeName, '.');
    if |parts| < 2 then (routeName, "", "")
    else (parts[0], Join(parts[1..|parts| - 1], '.'), parts[|parts| - 1])
  }

  /** A route name determines its locale, node id and action name, provided locale and action name have no dot. */
  lemma RouteNameRoundTrip(locale: string, nodeId: string, actionName: string)
    requires '.' !in locale && '.' !in actionName
    ensures ParseRouteName(RouteName(locale, nodeId, actionName)) == (locale, nodeId, actionName)
  {
    var ids := if |nodeId| > 0 then Split(nodeId, '.') else [];
    var parts := [locale] + ids + [actionName];
    if |nodeId| > 0 {
      JoinAppend([locale], ids + [actionName], '.');
      JoinAppend(ids, [actionName], '.');
      JoinSplit(nodeId, '.');
      assert [locale] + ids + [actionName] == [locale] + (ids + [actionName]);
      assert Join(parts, '.') == RouteName(locale, nodeId, actionName);
    } else {
      assert Join(parts, '.') == RouteName(locale, nodeId, actionName);
    }
    assert forall i :: 0 <= i < |parts| ==> '.' !in parts[i];
    SplitJoin(parts, '.');
    assert parts[1..|parts| - 1] == ids;
    if |nodeId| > 0 {
      JoinSplit(nodeId, '.');
    }
  }

  /** Distinct (locale, node id, action name) triples never share a route name. */
  lemma RouteNamesDistinct(l1: string, id1: string, n1: string, l2: string, id2: string, n2: string)
    requires '.' !in l1 && '.' !in n1 && '.' !in l2 && '.' !in n2
    requires (l1, id1, n1) != (l2, id2, n2)
    ensures RouteName(l1, id1, n1) != RouteName(l2, id2, n2)
  {
    RouteNameRoundTrip(l1, id1, n1);
    RouteNameRoundTrip(l2, id2, n2);
  }

  // ---------------------------------------------------------------- path parameters

  /** The parameter a single path segment contributes: its brace-stripped text when it has the `{...}` form. */
  function ParameterOf(segment: string): seq<string>
  {
    if IsBraced(segment) then [StripBraces(segment)] else []
  }

  /** The parameters of a list of segments, left to right. */
  function BracedParameters(segments: seq<string>): seq<string>
  {
    if |segments| == 0 then []
    else BracedParameters(segments[..|segments| - 1]) + ParameterOf(segments[|segments| - 1])
  }

  /** `getPathParameters`, on the generated path itself. */
  function PathParameters(path: string): seq<string>
  {
    BracedParameters(Split(path, '/'))
  }

  lemma {:induction false} BracedParametersAppend(a: seq<string>, b: seq<string>)
    ensures BracedParameters(a + b) == BracedParameters(a) + BracedParameters(b)
    decreases |b|
  {
    if |b| > 0 {
      assert (a + b)[..|a + b| - 1] == a + b[..|b| - 1];
      BracedParametersAppend(a, b[..|b| - 1]);
    } else {
      assert a + b == a;
    }
  }

  /** Every path parameter is a bare name: no brace and no slash. */
  lemma {:induction false} PathParametersAreBare(path: string)
    ensures forall i :: 0 <= i < |PathParameters(path)| ==>
      '/' !in PathParameters(path)[i] && forall j :: 0 <= j < |PathParameters(path)[i]| ==> !IsBrace(PathParameters(path)[i][j])
  {
    BareNames(Split(path, '/'));
  }

  lemma {:induction false} BareNames(segments: seq<string>)
    requires forall i :: 0 <= i < |segments| ==> '/' !in segments[i]
    ensures forall i :: 0 <= i < |BracedParameters(segments)| ==>
      '/' !in BracedParameters(segments)[i] && forall j :: 0 <= j < |BracedParameters(segments)[i]| ==> !IsBrace(BracedParameters(segments)[i][j])
    decreases |segments|
  {
    if |segments| > 0 {
      BareNames(segments[..|segments| - 1]);
    }
  }

  /** One position of a node path as the tree declares it: a fixed text, or a `{name}` parameter. */
  datatype PathSegment = Literal(text: string) | Parameter(name: string)

  predicate WellFormedSegment(s: PathSegment)
  {
    match s
    case Literal(t) => '/' !in t && !IsBraced(t)
    case Parameter(n) => '/' !in n && forall j :: 0 <= j < |n| ==> !IsBrace(n[j])
  }

  function Render(s: PathSegment): string
  {
    match s
    case Literal(t) => t
    case Parameter(n) => "{" + n + "}"
  }

  function RenderAll(segments: seq<PathSegment>): (r: seq<string>)
    ensures |r| == |segments|
    ensures forall i :: 0 <= i < |r| ==> r[i] == Render(segments[i])
  {
    seq(|segments|, i requires 0 <= i < |segments| => Render(segments[i]))
  }

  /** The parameter names declared along a path, left to right. */
  function DeclaredParameters(segments: seq<PathSegment>): seq<string>
  {
    if |segments| == 0 then []
    else
      var last := segments[|segments| - 1];
      DeclaredParameters(segments[..|segments| - 1]) + if last.Parameter? then [last.name] else []
  }

  lemma {:induction false} RenderedParameters(segments: seq<PathSegment>)
    requires forall i :: 0 <= i < |segments| ==> WellFormedSegment(segments[i])
    ensures BracedParameters(RenderAll(segments)) == DeclaredParameters(segments)
    decreases |segments|
  {
    if |segments| > 0 {
      var n := |segments| - 1;
      assert RenderAll(segments)[..n] == RenderAll(segments[..n]);
      RenderedParameters(segments[..n]);
      if segments[n].Parameter? {
        BracedNameStripped(segments[n].name);
      }
    }
  }

  /**
   * Re-deriving the parameters from a path built of well-formed segments joined by `/`
   * gives back exactly the declared parameters, in order.
   */
  lemma PathParametersOfJoinedPath(segments: seq<PathSegment>)
    requires |segments| >= 1
    requires forall i :: 0 <= i < |segments| ==> WellFormedSegment(segments[i])
    ensures PathParameters(Join(RenderAll(segments), '/')) == DeclaredParameters(segments)
  {
    var rendered := RenderAll(segments);
    forall i | 0 <= i < |rendered|
      ensures '/' !in rendered[i]
    {
      if segments[i].Parameter? {
        assert rendered[i] == "{" + segments[i].name + "}";
      }
    }
    SplitJoin(rendered, '/');
    RenderedParameters(segments);
  }

  // ---------------------------------------------------------------- parameter auto-fill

  /** Parameter values by name; `None` is PHP's `null`. */
  type ParameterValues = map<string, Option<string>>

  /** `is_array($source) && isset($source[$p])`. */
  predicate IsSet(source: Option<ParameterValues>, p: string)
  {
    source.Some? && p in source.value && source.value[p].Some?
  }

  /** What stays in the required list after `fillParameterArray`: the names the source does not set, in order. */
  function Unfilled(source: Option<ParameterValues>, required: seq<string>): seq<string>
  {
    if |required| == 0 then []
    else
      var n := |required| - 1;
      Unfilled(source, required[..n]) + if IsSet(source, required[n]) then [] else [required[n]]
  }

  /** A name stays exactly when it is required and the source does not set it. */
  lemma {:induction false} UnfilledMembers(source: Option<ParameterValues>, required: seq<string>)
    ensures forall p :: p in Unfilled(source, required) <==> p in required && !IsSet(source, p)
    decreases |required|
  {
    if |required| > 0 {
      var n := |required| - 1;
      assert required == required[..n] + [required[n]];
      UnfilledMembers(source, required[..n]);
    }
  }

  /** The target after `fillParameterArray`: every required name the source sets, copied over. */
  function Filled(source: Option<ParameterValues>, required: seq<string>, target: map<string, string>): map<string, string>
  {
    if |required| == 0 then target
    else
      var n := |required| - 1;
      var t := Filled(source, required[..n], target);
      if IsSet(source, required[n]) then t[required[n] := source.value[required[n]].value] else t
  }

  /** The filled target holds the target's entries, overwritten by every required name the source sets. */
  lemma {:induction false} FilledEntries(source: Option<ParameterValues>, required: seq<string>, target: map<string, string>)
    ensures Filled(source, required, target).Keys == target.Keys + (set p | p in required && IsSet(source, p))
    ensures forall p :: p in required && IsSet(source, p) ==> Filled(source, required, target)[p] == source.value[p].value
    ensures forall p :: p in target && !(p in required && IsSet(source, p)) ==> Filled(source, required, target)[p] == target[p]
    decreases |required|
  {
    if |required| > 0 {
      var n := |required| - 1;
      assert required == required[..n] + [required[n]];
      FilledEntries(source, required[..n], target);
    }
  }

  /** The exception `autoFillPathParameters` throws, with the names it could not determine. */
  datatype UrlParametersMissingException = UrlParametersMissing(missing: seq<string>)
  {
    function Message(): string
    {
      "URL could not be generated due to the following undetermined parameter(s): " + Join(missing, ',')
    }
  }

  /**
   * `autoFillPathParameters`: nothing when no parameter is required; otherwise fill from the
   * supplied parameters, then what is still missing from the active nodes' values, and fail
   * with the names still missing.
   */
  function AutoFill(required: seq<string>, supplied: Option<ParameterValues>, current: ParameterValues)
    : Result<map<string, string>, UrlParametersMissingException>
  {
    if |required| == 0 then Success(map[])
    else
      var afterSupplied := Unfilled(supplied, required);
      var fromSupplied := Filled(supplied, required, map[]);
      if |afterSupplied| == 0 then Success(fromSupplied)
      else
        var afterCurrent := Unfilled(Some(current), afterSupplied);
        var fromBoth := Filled(Some(current), afterSupplied, fromSupplied);
        if |afterCurrent| > 0 then Failure(UrlParametersMissing(afterCurrent)) else Success(fromBoth)
  }

  /** The required names neither source sets, in required order: the reference for the failure. */
  function Missing(required: seq<string>, supplied: Option<ParameterValues>, current: ParameterValues): seq<string>
  {
    if |required| == 0 then []
    else
      var n := |required| - 1;
      var p := required[n];
      Missing(required[..n], supplied, current) + if !IsSet(supplied, p) && !IsSet(Some(current), p) then [p] else []
  }

  /** A name is missing exactly when it is required and neither source sets it. */
  lemma {:induction false} MissingMembers(required: seq<string>, supplied: Option<ParameterValues>, current: ParameterValues)
    ensures forall p :: p in Missing(required, supplied, current) <==>
      p in required && !IsSet(supplied, p) && !IsSet(Some(current), p)
    decreases |required|
  {
    if |required| > 0 {
      var n := |required| - 1;
      assert required == required[..n] + [required[n]];
      MissingMembers(required[..n], supplied, current);
    }
  }

  /** The second pass over what the first left is the same as keeping what neither source sets. */
  lemma {:induction false} UnfilledTwice(required: seq<string>, supplied: Option<ParameterValues>, current: ParameterValues)
    ensures Unfilled(Some(current), Unfilled(supplied, required)) == Missing(required, supplied, current)
    decreases |required|
  {
    if |required| > 0 {
      var n := |required| - 1;
      var init := required[..n];
      var p := required[n];
      UnfilledTwice(init, supplied, current);
      var first := Unfilled(supplied, init);
      assert Unfilled(supplied, required) == first + if IsSet(supplied, p) then [] else [p];
      assert Missing(required, supplied, current) ==
        Missing(init, supplied, current) + if !IsSet(supplied, p) && !IsSet(Some(current), p) then [p] else [];
      if !IsSet(supplied, p) {
        var both := first + [p];
        assert both[..|both| - 1] == first;
        assert Unfilled(Some(current), both) ==
          Unfilled(Some(current), first) + if IsSet(Some(current), p) then [] else [p];
      } else {
        assert Unfilled(supplied, required) == first;
        assert Missing(required, supplied, current) == Missing(init, supplied, current);
      }
    }
  }

  /**
   * `autoFillPathParameters` fails exactly when some required name is set by neither the supplied
   * parameters nor the active nodes' values, and the exception lists those names in required order;
   * with nothing required it succeeds with no parameters whatever is supplied.
   */
  lemma AutoFillFailure(required: seq<string>, supplied: Option<ParameterValues>, current: ParameterValues)
    ensures |required| == 0 ==> AutoFill(required, supplied, current) == Success(map[])
    ensures AutoFill(required, supplied, current).Failure? <==> |Missing(required, supplied, current)| > 0
    ensures AutoFill(required, supplied, current).Failure? ==>
      AutoFill(required, supplied, current).error.missing == Missing(required, supplied, current)
  {
    if |required| > 0 {
      UnfilledTwice(required, supplied, current);
      if |Unfilled(supplied, required)| == 0 {
        UnfilledMembers(supplied, required);
        MissingMembers(required, supplied, current);
      }
    }
  }

  /**
   * On success the filled parameters name exactly the required parameters, each taking the
   * supplied value when one is set and the active node's value otherwise.
   */
  lemma AutoFillSuccess(required: seq<string>, supplied: Option<ParameterValues>, current: ParameterValues)
    requires AutoFill(required, supplied, current).Success?
    ensures AutoFill(required, supplied, current).value.Keys == set p | p in required
    ensures forall p :: p in required ==>
      if IsSet(supplied, p) then AutoFill(required, supplied, current).value[p] == supplied.value[p].value
      else IsSet(Some(current), p) && AutoFill(required, supplied, current).value[p] == current[p].value
  {
    if |required| > 0 {
      var afterSupplied := Unfilled(supplied, required);
      var fromSupplied := Filled(supplied, required, map[]);
      FilledEntries(supplied, required, map[]);
      UnfilledMembers(supplied, required);
      if |afterSupplied| > 0 {
        UnfilledMembers(Some(current), afterSupplied);
        FilledEntries(Some(current), afterSupplied, fromSupplied);
        assert forall p :: p in afterSupplied ==> IsSet(Some(current), p);
      } else {
        assert forall p :: p in required ==> IsSet(supplied, p);
      }
    }
  }

  // ---------------------------------------------------------------- middleware

  /** `skipMiddleware(name)`: the name is appended unless it is already listed. */
  function WithSkip(skip: seq<string>, name: string): seq<string>
  {
    if name in skip then skip else skip + [name]
  }

  /** Skipping is idempotent and the skip list never holds a name twice. */
  lemma WithSkipIdempotent(skip: seq<string>, name: string)
    ensures WithSkip(WithSkip(skip, name), name) == WithSkip(skip, name)
    ensures Distinct(skip) ==> Distinct(WithSkip(skip, name))
    ensures name in WithSkip(skip, name)
  {
  }

  /** `compileMiddleware`: the node's entries minus the skipped ones, overlaid with the action's own, each compiled. */
  function CompiledMiddleware(nodeMiddleware: OrderedMap<seq<string>>, skip: seq<string>, own: OrderedMap<seq<string>>)
    : OrderedMap<string>
  {
    Transform(Merge(Without(nodeMiddleware, skip), own), Annotate)
  }

  /** The reference for one middleware name: the action's own parameters, else the node's unless skipped. */
  function EffectiveParameters(nodeMiddleware: OrderedMap<seq<string>>, skip: seq<string>, own: OrderedMap<seq<string>>,
                               name: string): Option<seq<string>>
  {
    if name in Keys(own) then Get(own, name)
    else if name in skip then None
    else Get(nodeMiddleware, name)
  }

  /** The compiled entry for a name with the given parameters, if it has any entry. */
  function AnnotatedEntry(name: string, parameters: Option<seq<string>>): Option<string>
  {
    match parameters
    case None => None
    case Some(ps) => Some(Annotate(name, ps))
  }

  /**
   * The compiled middleware holds the node's unskipped names in the node's order followed by the
   * names only the action adds, in the action's order; each reads `name` or `name:p1,p2`, built
   * from the action's parameters when it has the name and from the node's otherwise.
   */
  lemma CompiledMiddlewareContract(nodeMiddleware: OrderedMap<seq<string>>, skip: seq<string>, own: OrderedMap<seq<string>>)
    requires Valid(nodeMiddleware) && Valid(own)
    ensures Valid(CompiledMiddleware(nodeMiddleware, skip, own))
    ensures Keys(CompiledMiddleware(nodeMiddleware, skip, own)) ==
      KeysNotIn(Keys(nodeMiddleware), skip) + KeysNotIn(Keys(own), KeysNotIn(Keys(nodeMiddleware), skip))
    ensures forall name ::
              Get(CompiledMiddleware(nodeMiddleware, skip, own), name) ==
              AnnotatedEntry(name, EffectiveParameters(nodeMiddleware, skip, own, name))
  {
    var kept := Without(nodeMiddleware, skip);
    WithoutKeeps(nodeMiddleware, skip);
    MergeOverlays(kept, own);
    forall name {
      GetTransform(Merge(kept, own), Annotate, name);
    }
  }

  /** A skipped name disappears unless the action itself adds it back. */
  lemma SkippedMiddleware(nodeMiddleware: OrderedMap<seq<string>>, skip: seq<string>, own: OrderedMap<seq<string>>, name: string)
    requires Valid(nodeMiddleware) && Valid(own)
    requires name in skip
    ensures name in Keys(CompiledMiddleware(nodeMiddleware, skip, own)) <==> name in Keys(own)
  {
    CompiledMiddlewareContract(nodeMiddleware, skip, own);
    assert Get(CompiledMiddleware(nodeMiddleware, skip, own), name).Some? <==> name in Keys(own);
  }

  // ---------------------------------------------------------------- root line

  /** An action named on a node: what the breadcrumb lists hold. */
  datatype ActionRef = ActionRef(node: RouteNode, name: Option<string>)

  /** Raised when a node lacks the parent action the table names. */
  datatype ActionNotFoundException = ActionNotFound(nodeId: string, action: string)

  /** `accumulateParentActions`: the same-node parent actions, nearest first. */
  function ParentActions(a: ActionRef): Result<seq<ActionRef>, ActionNotFoundException>
    decreases Rank(a.name)
  {
    match ParentActionOf(a.name)
    case None => Success([])
    case Some(p) =>
      if p !in a.node.actions then Failure(ActionNotFound(a.node.id, p))
      else
        ParentRankDecreases(a.name);
        match ParentActions(ActionRef(a.node, Some(p)))
        case Failure(e) => Failure(e)
        case Success(rest) => Success([ActionRef(a.node, Some(p))] + rest)
  }

  /**
   * `accumulateRootLineActions`: the same-node parent actions, then the parent node's lowest
   * root-line action and, recursively, that action's own accumulation; nearest first.
   */
  function Accumulated(a: ActionRef): Result<seq<ActionRef>, ActionNotFoundException>
    decreases a.node
  {
    match ParentActions(a)
    case Failure(e) => Failure(e)
    case Success(own) =>
      match a.node.parent
      case None => Success(own)
      case Some(p) =>
        match p.lowest
        case NoRootLineAction => Success(own)
        case RootLineAction(l) =>
          match Accumulated(ActionRef(p, l))
          case Failure(e) => Failure(e)
          case Success(rest) => Success(own + [ActionRef(p, l)] + rest)
  }

  /** `getRootLineActions`: the accumulation reversed, so the root comes first. */
  function RootLine(a: ActionRef): Result<seq<ActionRef>, ActionNotFoundException>
  {
    match Accumulated(a)
    case Failure(e) => Failure(e)
    case Success(acc) => Success(Reverse(acc))
  }

  /**
   * The same-node part follows the table's parent chain: it succeeds exactly when the node has
   * every action on the chain, and then lists them nearest first.
   */
  lemma {:induction false} ParentActionsFollowChain(a: ActionRef)
    ensures ParentActions(a).Success? <==> forall i :: 0 <= i < |ParentChain(a.name)| ==> ParentChain(a.name)[i] in a.node.actions
    ensures ParentActions(a).Success? ==>
      |ParentActions(a).value| == |ParentChain(a.name)| &&
      forall i :: 0 <= i < |ParentChain(a.name)| ==> ParentActions(a).value[i] == ActionRef(a.node, Some(ParentChain(a.name)[i]))
    decreases Rank(a.name)
  {
    match ParentActionOf(a.name)
    case None =>
    case Some(p) =>
      ParentRankDecreases(a.name);
      ParentActionsFollowChain(ActionRef(a.node, Some(p)));
      var tail := ParentChain(Some(p));
      assert ParentChain(a.name) == [p] + tail;
      var sub := ParentActions(ActionRef(a.node, Some(p)));
      if p in a.node.actions && sub.Success? {
        assert ParentActions(a).value == [ActionRef(a.node, Some(p))] + sub.value;
        forall i | 0 <= i < |ParentChain(a.name)|
          ensures ParentChain(a.name)[i] in a.node.actions
        {
          if i > 0 {
            assert ParentChain(a.name)[i] == tail[i - 1];
          }
        }
      } else if p !in a.node.actions {
        assert ParentChain(a.name)[0] !in a.node.actions;
      } else {
        var i :| 0 <= i < |tail| && tail[i] !in a.node.actions;
        assert ParentChain(a.name)[i + 1] !in a.node.actions;
      }
  }

  /** The same-node parents all sit on the action's node and rank strictly below it. */
  lemma {:induction false} ParentActionsBelow(a: ActionRef)
    requires ParentActions(a).Success?
    ensures forall x :: x in ParentActions(a).value ==> x.node == a.node && Rank(x.name) < Rank(a.name)
    decreases Rank(a.name)
  {
    match ParentActionOf(a.name)
    case None =>
    case Some(p) =>
      ParentRankDecreases(a.name);
      ParentActionsBelow(ActionRef(a.node, Some(p)));
  }

  /** Closer to the root means a smaller depth: along the accumulation depths never grow. */
  predicate DepthsNonIncreasing(s: seq<ActionRef>)
  {
    forall i, j :: 0 <= i < j < |s| ==> Depth(s[j].node) <= Depth(s[i].node)
  }

  /**
   * Everything accumulated belongs to the action's node or one of its ancestors, never the action
   * itself, nearest first.
   */
  lemma {:induction false} AccumulatedAncestors(a: ActionRef)
    requires Accumulated(a).Success?
    ensures forall x :: x in Accumulated(a).value ==> IsAncestorOrSelf(x.node, a.node)
    ensures forall x :: x in Accumulated(a).value && x.node == a.node ==> Rank(x.name) < Rank(a.name)
    ensures a !in Accumulated(a).value
    ensures DepthsNonIncreasing(Accumulated(a).value)
    decreases a.node
  {
    var own := ParentActions(a).value;
    ParentActionsBelow(a);
    var acc := Accumulated(a).value;
    if a.node.parent.Some? && a.node.parent.value.lowest.RootLineAction? {
      var p := a.node.parent.value;
      var up := ActionRef(p, p.lowest.name);
      AccumulatedAncestors(up);
      var rest := Accumulated(up).value;
      assert acc == own + [up] + rest;
      assert Depth(p) < Depth(a.node);
      forall x | x in [up] + rest
        ensures IsAncestorOrSelf(x.node, a.node) && Depth(x.node) <= Depth(p)
      {
        AncestorOfParent(x.node, a.node);
        AncestorDepth(x.node, p);
      }
      forall i, j | 0 <= i < j < |acc|
        ensures Depth(acc[j].node) <= Depth(acc[i].node)
      {
        if i < |own| {
          assert acc[i] in own;
          if j >= |own| {
            assert acc[j] in [up] + rest;
          }
        } else {
          assert acc[i] in [up] + rest && acc[j] in [up] + rest;
          if i > |own| {
            assert acc[i] == rest[i - |own| - 1] && acc[j] == rest[j - |own| - 1];
          } else {
            assert acc[j] in rest;
            AncestorDepth(acc[j].node, p);
          }
        }
      }
    } else {
      assert acc == own;
    }
  }

  /**
   * `getRootLineActions` lists only actions of the node or its ancestors, and never the action
   * itself.
   */
  lemma RootLineAncestors(a: ActionRef)
    requires RootLine(a).Success?
    ensures forall x :: x in RootLine(a).value ==> IsAncestorOrSelf(x.node, a.node)
    ensures a !in RootLine(a).value
  {
    AccumulatedAncestors(a);
    ReverseMembers(Accumulated(a).value);
  }

  /** Reversing a nearest-first list gives a root-first one. */
  lemma ReversedDepths(s: seq<ActionRef>)
    requires DepthsNonIncreasing(s)
    ensures forall i, j :: 0 <= i < j < |Reverse(s)| ==> Depth(Reverse(s)[i].node) <= Depth(Reverse(s)[j].node)
  {
    var r := Reverse(s);
    forall i, j | 0 <= i < j < |r|
      ensures Depth(r[i].node) <= Depth(r[j].node)
    {
      assert r[i] == s[|s| - 1 - i] && r[j] == s[|s| - 1 - j];
    }
  }

  /** `getRootLineActions` puts the root first: depths never shrink along the list. */
  lemma RootLineRootFirst(a: ActionRef)
    requires RootLine(a).Success?
    ensures forall i, j :: 0 <= i < j < |RootLine(a).value| ==>
      Depth(RootLine(a).value[i].node) <= Depth(RootLine(a).value[j].node)
  {
    AccumulatedAncestors(a);
    ReversedDepths(Accumulated(a).value);
  }

  /** The last breadcrumb before the action is its same-node parent action, when the table names one. */
  lemma RootLineEndsWithParent(a: ActionRef)
    requires RootLine(a).Success?
    requires ParentActionOf(a.name).Some?
    ensures |RootLine(a).value| > 0
    ensures RootLine(a).value[|RootLine(a).value| - 1] == ActionRef(a.node, ParentActionOf(a.name))
  {
    var acc := Accumulated(a).value;
    var own := ParentActions(a).value;
    assert own[0] == ActionRef(a.node, ParentActionOf(a.name));
    assert acc[..|own|] == own;
    assert RootLine(a).value == Reverse(acc);
  }

  // ---------------------------------------------------------------- setAction

  /** An opaque PHP closure. */
  datatype Closure = Closure(id: nat)

  /** A value inside an array handed to `setAction`. */
  datatype ArgValue = NullValue | TextValue(text: string) | IntValue(number: int) | ArrayValue(items: map<string, string>)

  /** What `setAction` may be handed. */
  datatype ActionArg =
    | StringArg(text: string)
    | ArrayArg(entries: map<string, ArgValue>)
    | ClosureArg(closure: Closure)
    | OtherArg

  /** `isset($arg[$key])`. */
  predicate IsSetEntry(entries: map<string, ArgValue>, key: string)
  {
    key in entries && entries[key] != NullValue
  }

  predicate IsViewArray(entries: map<string, ArgValue>)
  {
    |entries| == 2 && IsSetEntry(entries, "view") && IsSetEntry(entries, "data")
  }

  predicate IsRedirectArray(entries: map<string, ArgValue>)
  {
    |entries| == 2 && IsSetEntry(entries, "redirect") && IsSetEntry(entries, "status")
  }

  /** The declared parameter types of `setView(string, array)` and `setRedirect(string, int)` hold. */
  predicate WellTyped(arg: ActionArg)
  {
    arg.ArrayArg? ==>
      (IsViewArray(arg.entries) ==> arg.entries["view"].TextValue? && arg.entries["data"].ArrayValue?) &&
      (!IsViewArray(arg.entries) && IsRedirectArray(arg.entries) ==>
        arg.entries["redirect"].TextValue? && arg.entries["status"].IntValue?)
  }

  datatype ActionKind =
    | Controller(uses: string)
    | View(view: string, data: map<string, string>)
    | Redirect(target: string, status: int)
    | Handler(closure: Closure)
    | Unrecognized

  /** `setAction`'s classification of its argument, first matching branch first. */
  function Classify(arg: ActionArg): (k: ActionKind)
    requires WellTyped(arg)
    ensures k.Controller? <==> arg.StringArg? && '@' in arg.text && arg.text[0] != '@'
    ensures k.Controller? ==> k.uses == arg.text
    ensures k.View? <==> arg.ArrayArg? && IsViewArray(arg.entries)
    ensures k.Redirect? <==> arg.ArrayArg? && !IsViewArray(arg.entries) && IsRedirectArray(arg.entries)
    ensures k.Handler? <==> arg.ClosureArg?
  {
    match arg
    case StringArg(s) =>
      assert '@' in s && s[0] != '@' ==> IndexOf(s, '@').Some? && IndexOf(s, '@').value != 0;
      if IndexOf(s, '@').Some? && IndexOf(s, '@').value > 0 then Controller(s) else Unrecognized
    case ArrayArg(e) =>
      if IsViewArray(e) then View(e["view"].text, e["data"].items)
      else if IsRedirectArray(e) then Redirect(e["redirect"].text, e["status"].number)
      else Unrecognized
    case ClosureArg(c) => Handler(c)
    case OtherArg => Unrecognized
  }

  /** A string names a controller method exactly when it has an `@` that is not its first character. */
  lemma ClassifyString(s: string)
    ensures Classify(StringArg(s)).Controller? <==> '@' in s && s[0] != '@'
    ensures Classify(StringArg(s)).Controller? ==> Classify(StringArg(s)).uses == s
  {
    if '@' in s && s[0] != '@' {
      assert IndexOf(s, '@').Some? && IndexOf(s, '@').value != 0;
    }
  }

  /** The handler fields `setAction` and `setClosure` write. */
  datatype Handlers = Handlers(
    uses: Option<string>,
    view: Option<string>,
    viewData: Option<map<string, string>>,
    redirect: Option<string>,
    redirectStatus: Option<int>,
    closure: Option<Closure>)

  const NoHandlers := Handlers(None, None, None, None, None, None)

  /** The fields after `setAction`: only those of the recognised kind are written; nothing is cleared. */
  function WithAction(h: Handlers, kind: ActionKind): Handlers
  {
    match kind
    case Controller(u) => h.(uses := Some(u))
    case View(v, d) => h.(view := Some(v), viewData := Some(d))
    case Redirect(t, s) => h.(redirect := Some(t), redirectStatus := Some(s))
    case Handler(c) => h.(closure := Some(c))
    case Unrecognized => h
  }

  /** A second `setAction` adds its kind beside the first: an action can end up with two kinds set. */
  lemma SetActionKeepsEarlierKind(uses: string, view: string, data: map<string, string>)
    ensures WithAction(WithAction(NoHandlers, Controller(uses)), View(view, data)).uses == Some(uses)
    ensures WithAction(WithAction(NoHandlers, Controller(uses)), View(view, data)).view == Some(view)
  {
  }
}
