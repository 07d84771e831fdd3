/**
 * PHP arrays with string keys, as the route tree uses them for middleware
 * (`name => parameters`) and parameter regexes (`parameter => regex`):
 * a sequence of entries in insertion order, at most one entry per key in a
 * well-formed array. Assignment `$a[$k] = $v`, `array_merge`, filtering by a
 * list of excluded keys, and building a new array entry by entry.
 */
module OrderedMaps {
  import opened Wrappers

  type OrderedMap<V> = seq<(string, V)>

  /** The keys, in the array's order. */
  function Keys<V>(m: OrderedMap<V>): (ks: seq<string>)
    ensures |ks| == |m|
    ensures forall i :: 0 <= i < |m| ==> ks[i] == m[i].0
  {
    seq(|m|, i requires 0 <= i < |m| => m[i].0)
  }

  predicate Distinct(ks: seq<string>)
  {
    forall i, j :: 0 <= i < j < |ks| ==> ks[i] != ks[j]
  }

  /** A PHP array never holds the same key twice. */
  predicate Valid<V>(m: OrderedMap<V>)
  {
    Distinct(Keys(m))
  }

  /** `$a[$k]` when `isset`-style presence matters: the value stored under `k`, if any. */
  function Get<V>(m: OrderedMap<V>, k: string): (r: Option<V>)
    ensures r.Some? <==> k in Keys(m)
  {
    if |m| == 0 then None
    else if m[|m| - 1].0 == k then Some(m[|m| - 1].1)
    else
      assert Keys(m) == Keys(m[..|m| - 1]) + [m[|m| - 1].0];
      Get(m[..|m| - 1], k)
  }

  /** `$a[$k] = $v`: an existing key keeps its position and takes the new value; a new key goes last. */
  function Put<V>(m: OrderedMap<V>, k: string, v: V): OrderedMap<V>
  {
    if k in Keys(m) then seq(|m|, i requires 0 <= i < |m| => if m[i].0 == k then (k, v) else m[i])
    else m + [(k, v)]
  }

  lemma PutKeys<V>(m: OrderedMap<V>, k: string, v: V)
    ensures Keys(Put(m, k, v)) == if k in Keys(m) then Keys(m) else Keys(m) + [k]
  {
  }

  /** Assignment keeps an array well formed: a new key is not among the old ones. */
  lemma PutValid<V>(m: OrderedMap<V>, k: string, v: V)
    requires Valid(m)
    ensures Valid(Put(m, k, v))
  {
    PutKeys(m, k, v);
    if k !in Keys(m) {
      var ks := Keys(m) + [k];
      forall i, j | 0 <= i < j < |ks| ensures ks[i] != ks[j] {
        if j == |m| {
          assert ks[i] == Keys(m)[i];
        }
      }
    }
  }

  /** Assigning over an existing key of the first `n` entries acts on those entries alone. */
  lemma PutPrefix<V>(m: OrderedMap<V>, n: nat, k: string, v: V)
    requires n <= |m| && k in Keys(m[..n])
    ensures k in Keys(m)
    ensures Put(m, k, v)[..n] == Put(m[..n], k, v)
  {
    var i :| 0 <= i < n && Keys(m[..n])[i] == k;
    assert Keys(m)[i] == k;
  }

  /** Assignment makes the key read back as the new value and leaves every other key alone. */
  lemma {:induction false} GetPut<V>(m: OrderedMap<V>, k: string, v: V, j: string)
    ensures Get(Put(m, k, v), j) == if j == k then Some(v) else Get(m, j)
    decreases |m|
  {
    var p := Put(m, k, v);
    if k !in Keys(m) {
      assert p[..|p| - 1] == m;
    } else {
      var n := |m| - 1;
      assert Keys(m) == Keys(m[..n]) + [m[n].0];
      assert p[n].0 == m[n].0;
      if k in Keys(m[..n]) {
        PutPrefix(m, n, k, v);
        GetPut(m[..n], k, v, j);
      } else {
        assert p[..n] == m[..n];
      }
    }
  }

  /** The keys of `ks` not in `excluded`, in order. */
  function KeysNotIn(ks: seq<string>, excluded: seq<string>): (r: seq<string>)
    ensures forall k :: k in r <==> k in ks && k !in excluded
  {
    if |ks| == 0 then []
    else
      var n := |ks| - 1;
      assert ks == ks[..n] + [ks[n]];
      KeysNotIn(ks[..n], excluded) + if ks[n] in excluded then [] else [ks[n]]
  }

  /** `array_merge($a, $b)` for string keys: every entry of `b` assigned over `a`, in `b`'s order. */
  function Merge<V>(a: OrderedMap<V>, b: OrderedMap<V>): OrderedMap<V>
  {
    if |b| == 0 then a
    else Put(Merge(a, b[..|b| - 1]), b[|b| - 1].0, b[|b| - 1].1)
  }

  /** The keys of concatenated arrays are the concatenated keys. */
  lemma KeysAppend<V>(a: OrderedMap<V>, b: OrderedMap<V>)
    ensures Keys(a + b) == Keys(a) + Keys(b)
  {
    assert forall i :: 0 <= i < |b| ==> (a + b)[|a| + i] == b[i];
  }

  /** Merging keeps `a`'s keys in place and adds the keys only `b` has, in `b`'s order. */
  lemma {:induction false} MergeKeys<V>(a: OrderedMap<V>, b: OrderedMap<V>)
    requires Valid(b)
    ensures Keys(Merge(a, b)) == Keys(a) + KeysNotIn(Keys(b), Keys(a))
    decreases |b|
  {
    if |b| > 0 {
      var n := |b| - 1;
      var prefix, key := b[..n], b[n].0;
      assert Keys(b) == Keys(prefix) + [key];
      assert Valid(prefix);
      assert key !in Keys(prefix) by {
        forall i | 0 <= i < n ensures Keys(prefix)[i] != key {
          assert Keys(prefix)[i] == Keys(b)[i];
        }
      }
      MergeKeys(a, prefix);
      PutKeys(Merge(a, prefix), key, b[n].1);
      assert Keys(b)[..n] == Keys(prefix);
    }
  }

  /** Merging into a well-formed array gives a well-formed array. */
  lemma {:induction false} MergeValid<V>(a: OrderedMap<V>, b: OrderedMap<V>)
    requires Valid(a)
    ensures Valid(Merge(a, b))
    decreases |b|
  {
    if |b| > 0 {
      MergeValid(a, b[..|b| - 1]);
      PutValid(Merge(a, b[..|b| - 1]), b[|b| - 1].0, b[|b| - 1].1);
    }
  }

  /** After merging, a key of `b` reads `b`'s value and any other key `a`'s. */
  lemma {:induction false} MergeGet<V>(a: OrderedMap<V>, b: OrderedMap<V>, k: string)
    ensures Get(Merge(a, b), k) == if k in Keys(b) then Get(b, k) else Get(a, k)
    decreases |b|
  {
    if |b| > 0 {
      var n := |b| - 1;
      assert Keys(b) == Keys(b[..n]) + [b[n].0];
      MergeGet(a, b[..n], k);
      GetPut(Merge(a, b[..n]), b[n].0, b[n].1, k);
    }
  }

  /**
   * Merging overlays `b` on `a`: a key of `b` reads `b`'s value, any other key `a`'s;
   * `a`'s keys stay in place and the keys only `b` has follow in `b`'s order.
   */
  lemma MergeOverlays<V>(a: OrderedMap<V>, b: OrderedMap<V>)
    requires Valid(a) && Valid(b)
    ensures Valid(Merge(a, b))
    ensures Keys(Merge(a, b)) == Keys(a) + KeysNotIn(Keys(b), Keys(a))
    ensures forall k :: Get(Merge(a, b), k) == if k in Keys(b) then Get(b, k) else Get(a, k)
  {
    MergeValid(a, b);
    MergeKeys(a, b);
    forall k {
      MergeGet(a, b, k);
    }
  }

  /** The entries whose key is not in `excluded`, in order. */
  function Without<V>(m: OrderedMap<V>, excluded: seq<string>): OrderedMap<V>
  {
    if |m| == 0 then []
    else
      var n := |m| - 1;
      Without(m[..n], excluded) + if m[n].0 in excluded then [] else [m[n]]
  }

  /** Filtering keeps the surviving keys in order. */
  lemma {:induction false} WithoutKeys<V>(m: OrderedMap<V>, excluded: seq<string>)
    ensures Keys(Without(m, excluded)) == KeysNotIn(Keys(m), excluded)
    decreases |m|
  {
    if |m| > 0 {
      var n := |m| - 1;
      var tail := if m[n].0 in excluded then [] else [m[n]];
      assert Keys(m)[..n] == Keys(m[..n]);
      WithoutKeys(m[..n], excluded);
      KeysAppend(Without(m[..n], excluded), tail);
    }
  }

  /** Filtering drops exactly the excluded keys and keeps the others' values. */
  lemma {:induction false} WithoutGet<V>(m: OrderedMap<V>, excluded: seq<string>, k: string)
    ensures Get(Without(m, excluded), k) == if k in excluded then None else Get(m, k)
    decreases |m|
  {
    if |m| > 0 {
      var n := |m| - 1;
      var rest := Without(m[..n], excluded);
      WithoutGet(m[..n], excluded, k);
      assert Get(rest, k) == if k in excluded then None else Get(m[..n], k);
      if m[n].0 in excluded {
        assert Without(m, excluded) == rest;
      } else {
        var w := rest + [m[n]];
        assert Without(m, excluded) == w;
        assert w[..|w| - 1] == rest;
        assert Get(w, k) == if m[n].0 == k then Some(m[n].1) else Get(rest, k);
      }
    }
  }

  /** The surviving keys of a well-formed array are still distinct. */
  lemma {:induction false} KeysNotInDistinct(ks: seq<string>, excluded: seq<string>)
    requires Distinct(ks)
    ensures Distinct(KeysNotIn(ks, excluded))
    decreases |ks|
  {
    if |ks| > 0 {
      KeysNotInDistinct(ks[..|ks| - 1], excluded);
    }
  }

  /** Filtering drops exactly the excluded keys and keeps the others' values and order. */
  lemma WithoutKeeps<V>(m: OrderedMap<V>, excluded: seq<string>)
    requires Valid(m)
    ensures Valid(Without(m, excluded))
    ensures Keys(Without(m, excluded)) == KeysNotIn(Keys(m), excluded)
    ensures forall k :: Get(Without(m, excluded), k) == if k in excluded then None else Get(m, k)
  {
    WithoutKeys(m, excluded);
    KeysNotInDistinct(Keys(m), excluded);
    forall k {
      WithoutGet(m, excluded, k);
    }
  }

  /** A new array with the same keys, in the same order, each value computed from its entry. */
  function Transform<V, W>(m: OrderedMap<V>, f: (string, V) -> W): (r: OrderedMap<W>)
    ensures Keys(r) == Keys(m)
  {
    seq(|m|, i requires 0 <= i < |m| => (m[i].0, f(m[i].0, m[i].1)))
  }

  /** Each key of a transformed array reads the transformed value. */
  lemma {:induction false} GetTransform<V, W>(m: OrderedMap<V>, f: (string, V) -> W, k: string)
    ensures Get(Transform(m, f), k) == match Get(m, k) case None => None case Some(v) => Some(f(k, v))
    decreases |m|
  {
    if |m| > 0 {
      var n := |m| - 1;
      assert Transform(m, f)[..n] == Transform(m[..n], f);
      GetTransform(m[..n], f, k);
    }
  }
}
