/**
 * Concrete cases: the `photos` resource of the route tree's feature test
 * (route names, verbs, path parameters and titles), the breadcrumb example
 * of `getRootLineActions`' documentation, and small auto-fill, middleware and
 * route-id cases.
 */
module ResourceExamples {
  import opened Wrappers
  import opened PhpBuiltins
  import opened OrderedMaps
  import opened ActionConfigs
  import opened RouteNodes
  import opened AnnotatedNames
  import opened RouteActionSpec
  import opened RouteActions
  import opened RouteResources

  /** Route names of the `photos` node: locale, node id and action name. */
  lemma PhotoRouteNames()
    ensures RouteName("de", "photos", "index") == "de.photos.index"
    ensures RouteName("en", "photos", "show") == "en.photos.show"
    ensures RouteName("de", "", "index") == "de.index"
    ensures ParseRouteName("de.photos.index") == ("de", "photos", "index")
  {
    RouteNameRoundTrip("de", "photos", "index");
  }

  /** The German edit path of a photo splits into four segments. */
  lemma EditPathSegments(path: string)
    requires path == "de/photos/{photo}/bearbeiten"
    ensures Split(path, '/') == ["de", "photos", "{photo}", "bearbeiten"]
  {
    var parts := ["de", "photos", "{photo}", "bearbeiten"];
    assert Join(parts, '/') == path;
    SplitJoin(parts, '/');
  }

  /** Of those segments only `{photo}` is a parameter. */
  lemma EditSegmentParameters(segments: seq<string>)
    requires segments == ["de", "photos", "{photo}", "bearbeiten"]
    ensures BracedParameters(segments) == ["photo"]
  {
    BracedNameStripped("photo");
    assert "{" + "photo" + "}" == "{photo}";
    assert ParameterOf(segments[2]) == ["photo"];
    var s1, s2, s3 := segments[..1], segments[..2], segments[..3];
    assert s1[..0] == [] && s2[..1] == s1 && s3[..2] == s2 && segments[..3] == s3;
    assert BracedParameters(s1) == [];
    assert BracedParameters(s2) == [];
    assert BracedParameters(s3) == ["photo"];
  }

  /** The German edit path of a photo has the single parameter `photo`. */
  lemma EditPathParameters(path: string)
    requires path == "de/photos/{photo}/bearbeiten"
    ensures PathParameters(path) == ["photo"]
  {
    EditPathSegments(path);
    EditSegmentParameters(Split(path, '/'));
  }

  /** The test's `photos` node: title `Fotos`, and no title data for its actions. */
  function PhotosContext(activeValue: string): TitleContext
  {
    TitleContext(
      (key: string, parameters: TitleParameters, locale: Option<string>, action: Option<string>) => None,
      (parameters: TitleParameters, locale: Option<string>, title: string) => title,
      "Fotos", "Fotos", activeValue,
      (key: string, replacements: map<string, string>) => key)
  }

  /** The `show` action: title `Fotos: {photo}`, navigation title `{photo}`. */
  lemma ShowTitles(a: RouteAction)
    requires a.name == Some("show")
    ensures a.GetTitle(PhotosContext("{photo}"), None, Some("de")) == "Fotos: {photo}"
    ensures a.GetNavTitle(PhotosContext("{photo}"), None, Some("de")) == "{photo}"
  {
  }

  /** The `destroy` action has no default title: both titles are the node's. */
  lemma DestroyTitles(a: RouteAction)
    requires a.name == Some("destroy")
    ensures a.GetTitle(PhotosContext("{photo}"), None, Some("de")) == "Fotos"
    ensures a.GetNavTitle(PhotosContext("{photo}"), None, Some("de")) == "Fotos"
  {
  }

  /** The breadcrumb example: the root, `user` and `user.comment`, where `user`'s lowest root-line action is `show`. */
  const Root := RouteNode("", map[], [], [], {}, NoRootLineAction, None)
  const User := RouteNode("user", map[], [], [], {"index", "show"}, RootLineAction(Some("show")), Some(Root.(lowest := RootLineAction(None))))
  const Comment := RouteNode("user.comment", map[], [], [], {"index", "show", "edit"}, NoRootLineAction, Some(User))

  /**
   * The edit action of `user.comment` hangs under: the root's default action, `user`'s index and
   * show, and `user.comment`'s index and show, root first.
   */
  lemma CommentEditRootLine()
    ensures RootLine(ActionRef(Comment, Some("edit"))) == Success([
      ActionRef(Root.(lowest := RootLineAction(None)), None),
      ActionRef(User, Some("index")),
      ActionRef(User, Some("show")),
      ActionRef(Comment, Some("index")),
      ActionRef(Comment, Some("show"))])
  {
    var root := ActionRef(Root.(lowest := RootLineAction(None)), None);
    var userIndex := ActionRef(User, Some("index"));
    var userShow := ActionRef(User, Some("show"));
    var commentIndex := ActionRef(Comment, Some("index"));
    var commentShow := ActionRef(Comment, Some("show"));
    var commentEdit := ActionRef(Comment, Some("edit"));
    assert Accumulated(root) == Success([]);
    assert ParentActions(userIndex) == Success([]);
    assert ParentActions(userShow) == Success([userIndex] + []);
    var up := ActionRef(User.parent.value, User.parent.value.lowest.name);
    assert up == root;
    assert ParentActions(userShow).value + [up] + Accumulated(up).value == [userIndex, root];
    assert Accumulated(userShow) == Success([userIndex, root]);
    assert ParentActions(commentIndex) == Success([]);
    assert ParentActions(commentShow) == Success([commentIndex] + []);
    assert ParentActions(commentShow).value == [commentIndex];
    assert ParentActions(commentEdit) == Success([commentShow] + ParentActions(commentShow).value);
    assert ParentActions(commentEdit).value == [commentShow, commentIndex];
    var up2 := ActionRef(Comment.parent.value, Comment.parent.value.lowest.name);
    assert up2 == userShow;
    var acc := [commentShow, commentIndex, userShow, userIndex, root];
    assert ParentActions(commentEdit).value + [up2] + Accumulated(up2).value == acc;
    assert Accumulated(commentEdit) == Success(acc);
    var line := Reverse(acc);
    assert line[0] == root && line[1] == userIndex && line[2] == userShow && line[3] == commentIndex && line[4] == commentShow;
    assert line == [root, userIndex, userShow, commentIndex, commentShow];
  }

  /** A node without its `index` action cannot build the breadcrumbs of its `show` action. */
  lemma MissingParentAction()
    ensures RootLine(ActionRef(Comment.(actions := {"show"}), Some("show"))) ==
      Failure(ActionNotFound("user.comment", "index"))
  {
  }

  /** The `photo` parameter comes from the active node when it is not supplied, and is missing otherwise. */
  lemma PhotoAutoFill()
    ensures AutoFill(["photo"], None, map["photo" := Some("1")]) == Success(map["photo" := "1"])
    ensures AutoFill(["photo"], Some(map["photo" := Some("2")]), map["photo" := Some("1")]) == Success(map["photo" := "2"])
    ensures AutoFill(["photo"], Some(map["photo" := None]), map[]) == Failure(UrlParametersMissing(["photo"]))
    ensures UrlParametersMissing(["photo"]).Message() ==
      "URL could not be generated due to the following undetermined parameter(s): photo"
  {
    assert Unfilled(None, ["photo"]) == ["photo"];
    assert Unfilled(Some(map["photo" := Some("2")]), ["photo"]) == [];
    assert Unfilled(Some(map["photo" := None]), ["photo"]) == ["photo"];
  }

  /** Skipping `auth` and re-adding it with a parameter moves it after the node's `throttle:60,1`. */
  lemma MiddlewareExample()
    ensures CompiledMiddleware([("auth", []), ("throttle", ["60", "1"])], ["auth"], [("auth", ["admin"])]) ==
      [("throttle", "throttle:60,1"), ("auth", "auth:admin")]
  {
    var node: OrderedMap<seq<string>> := [("auth", []), ("throttle", ["60", "1"])];
    var own: OrderedMap<seq<string>> := [("auth", ["admin"])];
    assert node[..1] == [("auth", [])];
    assert node[..1][..0] == [];
    assert Without(node[..1], ["auth"]) == [];
    var kept := Without(node, ["auth"]);
    assert kept == [] + [("throttle", ["60", "1"])];
    assert own[..0] == [];
    assert Merge(kept, own[..0]) == kept;
    assert "auth" !in Keys(kept);
    var merged := Merge(kept, own);
    assert merged == Put(kept, "auth", ["admin"]);
    assert merged == [("throttle", ["60", "1"]), ("auth", ["admin"])];
    assert Join(["60", "1"], ',') == "60,1";
    assert Join(["admin"], ',') == "admin";
    assert Annotate("throttle", ["60", "1"]) == "throttle:60,1";
    assert Annotate("auth", ["admin"]) == "auth:admin";
    var compiled := Transform(merged, Annotate);
    assert compiled[0] == ("throttle", "throttle:60,1") && compiled[1] == ("auth", "auth:admin");
  }

  /** A route with keys and one without. */
  lemma RouteIds()
    ensures GenerateRouteId(RegisteredRoute("de.photos.show", Some(["1"]), "photos", "show", "de/photos/1", "de", ["GET"])) ==
      "de.photos.show:1"
    ensures GenerateRouteId(RegisteredRoute("de.photos.index", None, "photos", "index", "de/photos", "de", ["GET"])) ==
      "de.photos.index"
  {
  }
}
