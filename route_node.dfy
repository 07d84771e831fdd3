/**
 * The owning route node, seen from its actions. `RouteNode` itself is not
 * part of this model; what the actions ask of it is recorded here as plain
 * values (its id, its path per locale, its middleware and parameter
 * regexes, the action names it resolves, its lowest root-line action and
 * its parent), and its title services as a record of functions.
 */
module RouteNodes {
  import opened Wrappers
  import opened OrderedMaps
  import opened ActionConfigs

  /** What `getLowestRootLineAction()` answers: one of the node's own actions (by its name field), or `false`. */
  datatype LowestAction = NoRootLineAction | RootLineAction(name: Option<string>)

  datatype RouteNode = RouteNode(
    id: string,                            // getId(): '' for the root node
    paths: map<string, string>,            // getPath(locale) for each configured locale
    middleware: OrderedMap<seq<string>>,   // getMiddleware(): name => parameters
    wheres: OrderedMap<string>,            // the node's parameter regexes
    actions: set<string>,                  // the action names getAction() resolves
    lowest: LowestAction,                  // getLowestRootLineAction()
    parent: Option<RouteNode>)             // getParentNode(), present when hasParentNode()

  /** How many parent links lead from the node to the root. */
  function Depth(n: RouteNode): nat
  {
    match n.parent
    case None => 0
    case Some(p) => 1 + Depth(p)
  }

  /** `a` is `n` or lies on the chain of parents above `n`. */
  predicate IsAncestorOrSelf(a: RouteNode, n: RouteNode)
    decreases n
  {
    a == n || (n.parent.Some? && IsAncestorOrSelf(a, n.parent.value))
  }

  /** Ancestors are closer to the root; a proper ancestor strictly so. */
  lemma {:induction false} AncestorDepth(a: RouteNode, n: RouteNode)
    requires IsAncestorOrSelf(a, n)
    ensures Depth(a) <= Depth(n)
    ensures a != n ==> Depth(a) < Depth(n)
    decreases n
  {
    if a != n {
      AncestorDepth(a, n.parent.value);
    }
  }

  /** The parent's ancestors are the node's ancestors. */
  lemma {:induction false} AncestorOfParent(a: RouteNode, n: RouteNode)
    requires n.parent.Some? && IsAncestorOrSelf(a, n.parent.value)
    ensures IsAncestorOrSelf(a, n)
  {
  }

  /** Parameters as handed to the title services: `null` or `name => value`. */
  type TitleParameters = Option<map<string, string>>

  /**
   * The node's title services and the translator, as total functions:
   * `getData(key, parameters, locale, action)` (`None` where it answers `false`),
   * `processTitle(parameters, locale, title)`, the node's own `getTitle()`,
   * `getNavTitle()` and `getActiveValue()`, and `trans(key, replacements)`.
   */
  datatype TitleContext = TitleContext(
    data: (string, TitleParameters, Option<string>, Option<string>) -> Option<string>,
    process: (TitleParameters, Option<string>, string) -> string,
    nodeTitle: string,
    nodeNavTitle: string,
    activeValue: string,
    translate: (string, map<string, string>) -> string)

  function TextOf(t: NodeText, ctx: TitleContext): string
  {
    match t
    case NodeTitleText => ctx.nodeTitle
    case NodeNavTitleText => ctx.nodeNavTitle
    case ActiveValueText => ctx.activeValue
  }

  /** The replacements handed to the translator, later entries winning. */
  function Replacements(placeholders: seq<(string, NodeText)>, ctx: TitleContext): map<string, string>
  {
    if |placeholders| == 0 then map[]
    else
      var n := |placeholders| - 1;
      Replacements(placeholders[..n], ctx)[placeholders[n].0 := TextOf(placeholders[n].1, ctx)]
  }

  /** What a default-title closure of the action table returns. */
  function Evaluate(r: TitleRecipe, ctx: TitleContext): string
  {
    match r
    case Plain(t) => TextOf(t, ctx)
    case TitleWithActiveValue => ctx.nodeTitle + ": " + ctx.activeValue
    case Translated(key, placeholders) => ctx.translate(key, Replacements(placeholders, ctx))
  }
}
