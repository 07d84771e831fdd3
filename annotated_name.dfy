/**
 * The `name[:item1,item2,...]` text format the route tree produces in two
 * places: a compiled middleware entry (`RouteAction::compileMiddleware`)
 * and a route resource's id (`Route::generateRouteId`). A name alone when
 * there are no items, otherwise the name, a colon and the comma-joined items.
 */
module AnnotatedNames {
  import opened Wrappers
  import opened PhpBuiltins

  function Annotate(name: string, items: seq<string>): string
  {
    if |items| > 0 then name + ":" + Join(items, ',') else name
  }

  /** Reads the format back: the text before the first colon, and the comma-separated pieces after it. */
  function ParseAnnotated(text: string): (string, seq<string>)
  {
    match IndexOf(text, ':')
    case None => (text, [])
    case Some(i) => (text[..i], Split(text[i + 1..], ','))
  }

  /** The name always comes first. */
  lemma AnnotateStartsWithName(name: string, items: seq<string>)
    ensures name <= Annotate(name, items)
  {
  }

  /** The format loses nothing when the name has no colon and no item has a comma. */
  lemma AnnotateRoundTrip(name: string, items: seq<string>)
    requires ':' !in name
    requires forall i :: 0 <= i < |items| ==> ',' !in items[i]
    ensures ParseAnnotated(Annotate(name, items)) == (name, items)
  {
    if |items| > 0 {
      var text := Annotate(name, items);
      assert text[..|name|] == name;
      assert text[|name|] == ':';
      assert IndexOf(text, ':') == Some(|name|);
      assert text[|name| + 1..] == Join(items, ',');
      SplitJoin(items, ',');
    }
  }
}
