/**
 * The PHP run-time functions the route tree relies on, stated on sequences:
 * `explode`, `implode`, `strpos`, `array_reverse`, and the brace tests and
 * brace removal that appear verbatim in several places of the source
 * (`substr($s, 0, 1) === '{' && substr($s, -1) === '}'` and
 * `str_replace('{', '', str_replace('}', '', $s))`).
 */
module PhpBuiltins {
  import opened Wrappers

  /** `explode(sep, s)`: the pieces of `s` between the occurrences of `sep`, left to right. */
  function Split(s: string, sep: char): (parts: seq<string>)
    ensures |parts| >= 1
    ensures forall i :: 0 <= i < |parts| ==> sep !in parts[i]
    decreases |s|
  {
    if |s| == 0 then [""]
    else
      var rest := Split(s[1..], sep);
      if s[0] == sep then [""] + rest
      else [[s[0]] + rest[0]] + rest[1..]
  }

  /** `implode(sep, parts)`: the pieces glued together with `sep` between neighbours. */
  function Join(parts: seq<string>, sep: char): string
  {
    if |parts| == 0 then ""
    else if |parts| == 1 then parts[0]
    else parts[0] + [sep] + Join(parts[1..], sep)
  }

  /** `implode` undoes `explode`: gluing the pieces back gives the original string. */
  lemma {:induction false} JoinSplit(s: string, sep: char)
    ensures Join(Split(s, sep), sep) == s
    decreases |s|
  {
    if |s| > 0 {
      JoinSplit(s[1..], sep);
      var rest := Split(s[1..], sep);
      if s[0] == sep {
        assert Split(s, sep) == [""] + rest;
        assert ([""] + rest)[1..] == rest;
      } else {
        var parts := Split(s, sep);
        assert parts == [[s[0]] + rest[0]] + rest[1..];
        assert parts[1..] == rest[1..];
        if |rest| == 1 {
          assert Join(parts, sep) == [s[0]] + rest[0];
        } else {
          assert Join(rest, sep) == rest[0] + [sep] + Join(rest[1..], sep);
        }
        assert s == [s[0]] + s[1..];
      }
    }
  }

  /** A string without the separator is one piece. */
  lemma {:induction false} SplitWithoutSeparator(a: string, sep: char)
    requires sep !in a
    ensures Split(a, sep) == [a]
    decreases |a|
  {
    if |a| > 0 {
      SplitWithoutSeparator(a[1..], sep);
      assert [a[0]] + a[1..] == a;
    }
  }

  /** A separator-free prefix followed by the separator becomes the first piece. */
  lemma {:induction false} SplitAfterPiece(a: string, b: string, sep: char)
    requires sep !in a
    ensures Split(a + [sep] + b, sep) == [a] + Split(b, sep)
    decreases |a|
  {
    if |a| == 0 {
      assert a + [sep] + b == [sep] + b;
      assert ([sep] + b)[1..] == b;
    } else {
      var s := a + [sep] + b;
      assert s[0] == a[0] && s[1..] == a[1..] + [sep] + b;
      SplitAfterPiece(a[1..], b, sep);
      assert [a[0]] + a[1..] == a;
    }
  }

  /** `explode` undoes `implode` when no piece contains the separator. */
  lemma {:induction false} SplitJoin(parts: seq<string>, sep: char)
    requires |parts| >= 1
    requires forall i :: 0 <= i < |parts| ==> sep !in parts[i]
    ensures Split(Join(parts, sep), sep) == parts
    decreases |parts|
  {
    if |parts| == 1 {
      SplitWithoutSeparator(parts[0], sep);
    } else {
      SplitJoin(parts[1..], sep);
      SplitAfterPiece(parts[0], Join(parts[1..], sep), sep);
      assert [parts[0]] + parts[1..] == parts;
    }
  }

  /** Gluing two non-empty lists of pieces is gluing each and joining the results with the separator. */
  lemma {:induction false} JoinAppend(a: seq<string>, b: seq<string>, sep: char)
    requires |a| >= 1 && |b| >= 1
    ensures Join(a + b, sep) == Join(a, sep) + [sep] + Join(b, sep)
    decreases |a|
  {
    if |a| > 1 {
      assert (a + b)[1..] == a[1..] + b;
      JoinAppend(a[1..], b, sep);
    } else {
      assert (a + b)[1..] == b;
    }
  }

  /** `strpos(s, c)`: the index of the first occurrence of `c`, or `None` (PHP's `false`). */
  function IndexOf(s: string, c: char): (r: Option<nat>)
    ensures r.Some? ==> r.value < |s| && s[r.value] == c && c !in s[..r.value]
    ensures r.None? <==> c !in s
  {
    if |s| == 0 then None
    else if s[0] == c then Some(0)
    else match IndexOf(s[1..], c)
      case None => None
      case Some(i) =>
        assert s[..i + 1] == [s[0]] + s[1..][..i];
        Some(i + 1)
  }

  /** `substr(s, 0, 1) === '{' && substr(s, -1) === '}'`: the segment has the parameter form. */
  predicate IsBraced(s: string)
  {
    |s| > 0 && s[0] == '{' && s[|s| - 1] == '}'
  }

  predicate IsBrace(c: char)
  {
    c == '{' || c == '}'
  }

  /** `str_replace('{', '', str_replace('}', '', s))`: every brace character removed, the rest kept in order. */
  function StripBraces(s: string): (r: string)
    ensures forall i :: 0 <= i < |r| ==> !IsBrace(r[i])
    ensures forall c :: c in r ==> c in s
  {
    if |s| == 0 then ""
    else
      var rest := StripBraces(s[1..]);
      if IsBrace(s[0]) then rest else [s[0]] + rest
  }

  /** Removing braces from a brace-free string changes nothing. */
  lemma {:induction false} StripBracesOfBraceFree(s: string)
    requires forall i :: 0 <= i < |s| ==> !IsBrace(s[i])
    ensures StripBraces(s) == s
    decreases |s|
  {
    if |s| > 0 {
      StripBracesOfBraceFree(s[1..]);
      assert [s[0]] + s[1..] == s;
    }
  }

  /** Removing braces distributes over concatenation. */
  lemma {:induction false} StripBracesAppend(a: string, b: string)
    ensures StripBraces(a + b) == StripBraces(a) + StripBraces(b)
    decreases |a|
  {
    if |a| > 0 {
      assert (a + b)[1..] == a[1..] + b;
      StripBracesAppend(a[1..], b);
    } else {
      assert a + b == b;
    }
  }

  /** The parameter written as `{name}` comes back as `name`. */
  lemma BracedNameStripped(name: string)
    requires forall i :: 0 <= i < |name| ==> !IsBrace(name[i])
    ensures IsBraced("{" + name + "}")
    ensures StripBraces("{" + name + "}") == name
  {
    StripBracesAppend("{", name + "}");
    StripBracesAppend(name, "}");
    StripBracesOfBraceFree(name);
    assert "{" + name + "}" == "{" + (name + "}");
  }

  /** `array_reverse`: the same elements, last first. */
  function Reverse<T>(s: seq<T>): (r: seq<T>)
    ensures |r| == |s|
    ensures forall i :: 0 <= i < |s| ==> r[i] == s[|s| - 1 - i]
  {
    if |s| == 0 then [] else Reverse(s[1..]) + [s[0]]
  }

  /** Reversing keeps exactly the same elements. */
  lemma ReverseMembers<T>(s: seq<T>)
    ensures forall x :: x in Reverse(s) <==> x in s
  {
    forall x | x in s
      ensures x in Reverse(s)
    {
      var i :| 0 <= i < |s| && s[i] == x;
      assert Reverse(s)[|s| - 1 - i] == x;
    }
  }
}
