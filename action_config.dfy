/**
 * The static action-configuration table of `RouteAction::getActionConfigs`:
 * for each conventional action name its HTTP verb, its route-name suffix,
 * the action it hangs under on the same node (used for breadcrumbs), and
 * how its default title and default navigation title are produced.
 */
module ActionConfigs {
  import opened Wrappers

  /** A text the owning route node supplies. */
  datatype NodeText =
    | NodeTitleText      // RouteNode::getTitle()
    | NodeNavTitleText   // RouteNode::getNavTitle()
    | ActiveValueText    // RouteNode::getActiveValue()

  /** What a default-title closure of the table computes. */
  datatype TitleRecipe =
    | Plain(text: NodeText)
      /** The node's title, `': '`, and the node's active value. */
    | TitleWithActiveValue
      /** A translation key with its placeholders, each filled from a node text. */
    | Translated(key: string, placeholders: seq<(string, NodeText)>)

  datatype ActionConfig = ActionConfig(
    verb: string,
    suffix: Option<string>,
    parentAction: Option<string>,
    defaultTitle: Option<TitleRecipe>,
    defaultNavTitle: Option<TitleRecipe>)

  const CreateTitleKey := "Webflorist-RouteTree::routetree.createTitle"
  const CreateNavTitleKey := "Webflorist-RouteTree::routetree.createNavTitle"
  const EditTitleKey := "Webflorist-RouteTree::routetree.editTitle"
  const EditNavTitleKey := "Webflorist-RouteTree::routetree.editNavTitle"

  /**
   * The table itself, indexed by action name; `None` where the table has no entry. The nine
   * conventional names have entries; all but `get` and `post` carry their own name as suffix.
   */
  function Table(name: string): (r: Option<ActionConfig>)
    ensures r.Some? <==> name in ["index", "create", "store", "show", "edit", "update", "destroy", "get", "post"]
    ensures r.Some? ==> (r.value.suffix.Some? <==> name != "get" && name != "post")
    ensures r.Some? && r.value.suffix.Some? ==> r.value.suffix.value == name
    ensures r.Some? ==> r.value.verb in ["get", "post", "put", "delete"]
  {
    if name == "index" then
      Some(ActionConfig("get", Some("index"), None, Some(Plain(NodeTitleText)), Some(Plain(NodeNavTitleText))))
    else if name == "create" then
      Some(ActionConfig("get", Some("create"), Some("index"),
        Some(Translated(CreateTitleKey, [("resource", NodeTitleText)])),
        Some(Translated(CreateNavTitleKey, []))))
    else if name == "store" then
      Some(ActionConfig("post", Some("store"), None, None, None))
    else if name == "show" then
      Some(ActionConfig("get", Some("show"), Some("index"), Some(TitleWithActiveValue), Some(Plain(ActiveValueText))))
    else if name == "edit" then
      Some(ActionConfig("get", Some("edit"), Some("show"),
        Some(Translated(EditTitleKey, [("item", ActiveValueText)])),
        Some(Translated(EditNavTitleKey, []))))
    else if name == "update" then
      Some(ActionConfig("put", Some("update"), Some("index"), None, None))
    else if name == "destroy" then
      Some(ActionConfig("delete", Some("destroy"), Some("index"), None, None))
    else if name == "get" then
      Some(ActionConfig("get", None, None, None, None))
    else if name == "post" then
      Some(ActionConfig("post", None, None, None, None))
    else None
  }

  /** The table looked up with an action's `name` field; PHP reads a `null` key as `""`, which has no entry. */
  function ConfigFor(name: Option<string>): (r: Option<ActionConfig>)
    ensures name.None? ==> r.None?
    ensures name.Some? ==> r == Table(name.value)
  {
    match name
    case None => Table("")
    case Some(n) => Table(n)
  }

  /** `$actionConfigs[$name]['parentAction']` when it is set. */
  function ParentActionOf(name: Option<string>): Option<string>
  {
    match ConfigFor(name)
    case None => None
    case Some(c) => c.parentAction
  }

  /** `$actionConfigs[$name]['defaultTitle']` when it is set. */
  function DefaultTitleOf(name: Option<string>): Option<TitleRecipe>
  {
    match ConfigFor(name)
    case None => None
    case Some(c) => c.defaultTitle
  }

  /** `$actionConfigs[$name]['defaultNavTitle']` when it is set. */
  function DefaultNavTitleOf(name: Option<string>): Option<TitleRecipe>
  {
    match ConfigFor(name)
    case None => None
    case Some(c) => c.defaultNavTitle
  }

  /** How many parent-action links lead from an action to one without a parent. */
  function Rank(name: Option<string>): nat
  {
    if name == Some("edit") then 2
    else if ParentActionOf(name).Some? then 1
    else 0
  }

  /** The parent-action links of the table: edit to show, show/create/update/destroy to index, none elsewhere. */
  lemma ParentLinks(name: Option<string>)
    ensures ParentActionOf(Some("edit")) == Some("show")
    ensures ParentActionOf(Some("show")) == Some("index")
    ensures ParentActionOf(Some("create")) == Some("index")
    ensures ParentActionOf(Some("update")) == Some("index")
    ensures ParentActionOf(Some("destroy")) == Some("index")
    ensures name !in {Some("edit"), Some("show"), Some("create"), Some("update"), Some("destroy")} ==>
      ParentActionOf(name) == None
  {
  }

  /** Every parent link lowers the rank, so following links always stops; every parent has its own entry. */
  lemma ParentRankDecreases(name: Option<string>)
    requires ParentActionOf(name).Some?
    ensures Rank(ParentActionOf(name)) < Rank(name)
    ensures ConfigFor(ParentActionOf(name)).Some?
  {
  }

  /** The names reached by following parent links, nearest first. */
  function ParentChain(name: Option<string>): (chain: seq<string>)
    ensures |chain| == Rank(name)
    decreases Rank(name)
  {
    match ParentActionOf(name)
    case None => []
    case Some(p) =>
      ParentRankDecreases(name);
      [p] + ParentChain(Some(p))
  }

  /** Breadcrumbs inside one node: edit hangs under show under index; create, update and destroy under index. */
  lemma ParentChains()
    ensures ParentChain(Some("edit")) == ["show", "index"]
    ensures ParentChain(Some("show")) == ["index"]
    ensures ParentChain(Some("create")) == ["index"]
    ensures ParentChain(Some("update")) == ["index"]
    ensures ParentChain(Some("destroy")) == ["index"]
    ensures ParentChain(Some("index")) == []
    ensures ParentChain(Some("store")) == []
    ensures ParentChain(None) == []
  {
    ParentLinks(None);
    assert ParentChain(Some("index")) == [];
    assert ParentChain(Some("show")) == ["index"] + ParentChain(Some("index"));
    assert ParentChain(Some("edit")) == ["show"] + ParentChain(Some("show"));
  }

  /** In the shipped table every action with a default title also has a default navigation title. */
  lemma DefaultTitleImpliesDefaultNavTitle(name: Option<string>)
    ensures DefaultTitleOf(name).Some? ==> DefaultNavTitleOf(name).Some?
  {
  }

  /** The HTTP verb of each configured action. */
  lemma Verbs()
    ensures Table("index").value.verb == "get"
    ensures Table("create").value.verb == "get"
    ensures Table("store").value.verb == "post"
    ensures Table("show").value.verb == "get"
    ensures Table("edit").value.verb == "get"
    ensures Table("update").value.verb == "put"
    ensures Table("destroy").value.verb == "delete"
    ensures Table("get").value.verb == "get"
    ensures Table("post").value.verb == "post"
  {
  }
}
