/**
 * The `CanHaveSegments` trait: a per-locale map of path segments, written
 * for every configured locale at once, and the detection of a `{name}`
 * segment, which registers the owner's route parameter the first time one
 * is seen.
 */
module CanHaveSegments {
  import opened Wrappers
  import opened PhpBuiltins

  /** What `segment()` may be handed: a plain string, a `LanguageMapping` (locale to segment), or anything else. */
  datatype SegmentArg = Text(text: string) | Mapping(entries: map<string, string>) | Other

  /** The trait's state: the segment per locale and the owner's route parameter (`null` until set). */
  datatype SegmentState = SegmentState(segments: map<string, string>, parameter: Option<string>)

  /**
   * `setSegmentForLanguage(segment, locale)` on values: the segment is stored for the locale, and
   * a `{...}` segment names the parameter when the owner has `parameter()` and has none yet.
   */
  function SetFor(st: SegmentState, segment: string, locale: string, hasParameterMethod: bool): SegmentState
  {
    var parameter :=
      if IsBraced(segment) && hasParameterMethod && st.parameter.None? then Some(StripBraces(segment))
      else st.parameter;
    SegmentState(st.segments[locale := segment], parameter)
  }

  /** What `segment(arg)` stores for one locale, if anything. */
  function SegmentFor(arg: SegmentArg, locale: string): Option<string>
  {
    match arg
    case Mapping(m) => if locale in m then Some(m[locale]) else None
    case Text(s) => Some(s)
    case Other => None
  }

  /** `segment(arg)` on values: the locales visited in order. */
  function Apply(st: SegmentState, arg: SegmentArg, locales: seq<string>, hasParameterMethod: bool): SegmentState
  {
    if |locales| == 0 then st
    else
      var n := |locales| - 1;
      var before := Apply(st, arg, locales[..n], hasParameterMethod);
      match SegmentFor(arg, locales[n])
      case None => before
      case Some(segment) => SetFor(before, segment, locales[n], hasParameterMethod)
  }

  /**
   * After `segment(arg)` each configured locale holds what the argument gives it; every other
   * locale, and a configured locale the argument gives nothing, keeps its segment.
   */
  lemma {:induction false} ApplySegments(st: SegmentState, arg: SegmentArg, locales: seq<string>, hasParameterMethod: bool)
    ensures forall l :: l in locales && SegmentFor(arg, l).Some? ==>
      l in Apply(st, arg, locales, hasParameterMethod).segments &&
      Apply(st, arg, locales, hasParameterMethod).segments[l] == SegmentFor(arg, l).value
    ensures forall l :: !(l in locales && SegmentFor(arg, l).Some?) ==>
      (l in Apply(st, arg, locales, hasParameterMethod).segments <==> l in st.segments) &&
      (l in st.segments ==> Apply(st, arg, locales, hasParameterMethod).segments[l] == st.segments[l])
    decreases |locales|
  {
    if |locales| > 0 {
      var n := |locales| - 1;
      assert locales == locales[..n] + [locales[n]];
      ApplySegments(st, arg, locales[..n], hasParameterMethod);
    }
  }

  /** A string argument stores that string for every configured locale. */
  lemma TextForAllLocales(st: SegmentState, s: string, locales: seq<string>, hasParameterMethod: bool)
    ensures forall l :: l in locales ==>
      l in Apply(st, Text(s), locales, hasParameterMethod).segments &&
      Apply(st, Text(s), locales, hasParameterMethod).segments[l] == s
  {
    ApplySegments(st, Text(s), locales, hasParameterMethod);
  }

  /** A mapping writes only the configured locales it has; the others keep their segments. */
  lemma MappingOnlyItsLocales(st: SegmentState, m: map<string, string>, locales: seq<string>, hasParameterMethod: bool)
    ensures forall l :: l in locales && l in m ==>
      l in Apply(st, Mapping(m), locales, hasParameterMethod).segments &&
      Apply(st, Mapping(m), locales, hasParameterMethod).segments[l] == m[l]
    ensures forall l :: l in st.segments && !(l in locales && l in m) ==>
      l in Apply(st, Mapping(m), locales, hasParameterMethod).segments &&
      Apply(st, Mapping(m), locales, hasParameterMethod).segments[l] == st.segments[l]
  {
    ApplySegments(st, Mapping(m), locales, hasParameterMethod);
  }

  /** Any other argument changes nothing. */
  lemma {:induction false} OtherChangesNothing(st: SegmentState, locales: seq<string>, hasParameterMethod: bool)
    ensures Apply(st, Other, locales, hasParameterMethod) == st
    decreases |locales|
  {
    if |locales| > 0 {
      OtherChangesNothing(st, locales[..|locales| - 1], hasParameterMethod);
    }
  }

  /** Once the parameter is set, no segment changes it: the first parameter wins. */
  lemma {:induction false} FirstParameterWins(st: SegmentState, arg: SegmentArg, locales: seq<string>, hasParameterMethod: bool)
    requires st.parameter.Some?
    ensures Apply(st, arg, locales, hasParameterMethod).parameter == st.parameter
    decreases |locales|
  {
    if |locales| > 0 {
      FirstParameterWins(st, arg, locales[..|locales| - 1], hasParameterMethod);
    }
  }

  /** Segments without the `{...}` form never touch the parameter. */
  lemma {:induction false} UnbracedKeepsParameter(st: SegmentState, arg: SegmentArg, locales: seq<string>, hasParameterMethod: bool)
    requires forall l :: l in locales && SegmentFor(arg, l).Some? ==> !IsBraced(SegmentFor(arg, l).value)
    ensures Apply(st, arg, locales, hasParameterMethod).parameter == st.parameter
    decreases |locales|
  {
    if |locales| > 0 {
      var n := |locales| - 1;
      assert locales[n] in locales;
      UnbracedKeepsParameter(st, arg, locales[..n], hasParameterMethod);
    }
  }

  /** A braced segment for a configured locale names a parameter when the owner takes one; its name has no braces. */
  lemma {:induction false} BracedSetsParameter(st: SegmentState, arg: SegmentArg, locales: seq<string>, hasParameterMethod: bool, l: string)
    requires hasParameterMethod
    requires l in locales && SegmentFor(arg, l).Some? && IsBraced(SegmentFor(arg, l).value)
    ensures Apply(st, arg, locales, hasParameterMethod).parameter.Some?
    decreases |locales|
  {
    var n := |locales| - 1;
    if locales[n] != l {
      assert l in locales[..n];
      BracedSetsParameter(st, arg, locales[..n], hasParameterMethod, l);
      FirstParameterWins(Apply(st, arg, locales[..n], hasParameterMethod), arg, [locales[n]], hasParameterMethod);
      assert [locales[n]][..0] == [];
    }
  }

  /**
   * The parameter registered is the stripped name of the first braced segment: when none is set
   * yet and the owner takes one, the first configured locale whose segment is braced names it.
   */
  lemma {:induction false} FirstBracedSegmentNamesParameter(st: SegmentState, arg: SegmentArg, locales: seq<string>, hasParameterMethod: bool, i: nat)
    requires st.parameter.None? && hasParameterMethod
    requires i < |locales| && SegmentFor(arg, locales[i]).Some? && IsBraced(SegmentFor(arg, locales[i]).value)
    requires forall j :: 0 <= j < i && SegmentFor(arg, locales[j]).Some? ==> !IsBraced(SegmentFor(arg, locales[j]).value)
    ensures Apply(st, arg, locales, hasParameterMethod).parameter == Some(StripBraces(SegmentFor(arg, locales[i]).value))
    decreases |locales|
  {
    var n := |locales| - 1;
    var before := Apply(st, arg, locales[..n], hasParameterMethod);
    if n == i {
      forall l | l in locales[..n] && SegmentFor(arg, l).Some? ensures !IsBraced(SegmentFor(arg, l).value) {
        var j :| 0 <= j < n && locales[..n][j] == l;
        assert locales[j] == l;
      }
      UnbracedKeepsParameter(st, arg, locales[..n], hasParameterMethod);
    } else {
      assert locales[..n][i] == locales[i];
      FirstBracedSegmentNamesParameter(st, arg, locales[..n], hasParameterMethod, i);
      assert before.parameter.Some?;
    }
  }

  /** An object using the trait. */
  class SegmentOwner {
    /** `getLocales()`: the configured locales, in order. */
    const locales: seq<string>
    /** `method_exists($this, 'parameter')`. */
    const hasParameterMethod: bool
    var segments: map<string, string>
    var parameter: Option<string>

    constructor(configuredLocales: seq<string>, takesParameter: bool)
      ensures locales == configuredLocales && hasParameterMethod == takesParameter
      ensures segments == map[] && parameter == None
    {
      locales := configuredLocales;
      hasParameterMethod := takesParameter;
      segments := map[];
      parameter := None;
    }

    function State(): SegmentState
      reads this
    {
      SegmentState(segments, parameter)
    }

    /** `setSegmentForLanguage(segment, language)`. */
    method SetSegmentForLanguage(segment: string, language: string)
      modifies this`segments, this`parameter
      ensures State() == SetFor(old(State()), segment, language, hasParameterMethod)
      ensures GetSegment(language) == Some(segment) && HasSegment(language)
      ensures forall l :: l != language ==> GetSegment(l) == old(GetSegment(l))
    {
      segments := segments[language := segment];
      if |segment| > 0 && segment[0] == '{' && segment[|segment| - 1] == '}' {
        if hasParameterMethod && parameter.None? {
          parameter := Some(StripBraces(segment));
        }
      }
    }

    /** `segment(arg)`: every configured locale in turn. */
    method Segment(arg: SegmentArg)
      modifies this`segments, this`parameter
      ensures State() == Apply(old(State()), arg, locales, hasParameterMethod)
    {
      for i := 0 to |locales|
        invariant State() == Apply(old(State()), arg, locales[..i], hasParameterMethod)
      {
        var locale := locales[i];
        assert locales[..i + 1][..i] == locales[..i];
        match arg
        case Mapping(m) =>
          if locale in m {
            SetSegmentForLanguage(m[locale], locale);
          }
        case Text(s) =>
          SetSegmentForLanguage(s, locale);
        case Other =>
      }
      assert locales[..|locales|] == locales;
    }

    /** `getSegment(locale)`: the stored segment, or `null` for a locale never set. */
    function GetSegment(locale: string): (r: Option<string>)
      reads this
      ensures r.Some? <==> locale in segments
      ensures r.Some? ==> r.value == segments[locale]
    {
      if locale in segments then Some(segments[locale]) else None
    }

    /** `hasSegment(locale)`: exactly when `getSegment` answers non-null. */
    function HasSegment(locale: string): (r: bool)
      reads this
      ensures r <==> locale in segments
    {
      GetSegment(locale) != None
    }
  }
}
