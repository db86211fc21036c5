/**
 * Values shared by the result-shaping layer: the JSON-like values the search
 * backend returns, the request parameters the handlers echo back, the errors
 * the source raises, and the Python dictionary built from a list of pairs.
 */
module Values {

  datatype Option<+T> = None | Some(value: T)

  /** The exceptions the shaping code lets escape, as values. */
  datatype Error =
    | NoFacetField          // `keys()[0]` on an empty facet mapping (IndexError)
    | MissingKey(key: string) // `x['date']` on a document without that field (KeyError)
    | NotAString(field: string) // a regular expression applied to a non-string (TypeError)
    | UnexpectedArguments   // arguments beyond `data` passed to a method that takes none (TypeError)

  datatype Result<+T> = Ok(value: T) | Err(error: Error)

  /** A value decoded from the backend's JSON response. */
  datatype Value = Null | Str(s: string) | Int(i: int) | List(items: seq<Value>)

  /** A flat output record: a Python dict from string keys to values. */
  type Record = map<string, Value>

  /**
   * A request parameter: query-string and path values are strings; the
   * phrase-by-category handler also stores a list of result key names.
   */
  datatype Param = Text(s: string) | Keys(names: seq<string>)

  type Params = map<string, Param>

  /** A decimal digit, as `\d` matches it in an ASCII string. */
  predicate IsDigit(c: char)
  {
    '0' <= c <= '9'
  }

  /** Python's `zip` of two sequences: pairs up to the shorter length. */
  function Zip<A, B>(a: seq<A>, b: seq<B>): (r: seq<(A, B)>)
    ensures |r| == if |a| < |b| then |a| else |b|
    ensures forall i :: 0 <= i < |r| ==> r[i] == (a[i], b[i])
  {
    if a == [] || b == [] then [] else [(a[0], b[0])] + Zip(a[1..], b[1..])
  }

  /** Python's `dict(pairs)` (and a loop of `d[k] = v`): a later pair overwrites an earlier one. */
  function DictOf<K, V>(pairs: seq<(K, V)>): map<K, V>
  {
    if pairs == [] then map[]
    else DictOf(pairs[..|pairs| - 1])[pairs[|pairs| - 1].0 := pairs[|pairs| - 1].1]
  }

  /** `k` is the key of the pair at position `i` and of no later pair. */
  predicate LastKeyAt<K(==), V>(pairs: seq<(K, V)>, i: int)
  {
    0 <= i < |pairs| && forall j :: i < j < |pairs| ==> pairs[j].0 != pairs[i].0
  }

  /** The dict has exactly the keys of the pairs. */
  lemma {:induction false} DictOfKeys<K, V>(pairs: seq<(K, V)>, k: K)
    ensures k in DictOf(pairs) <==> exists i :: 0 <= i < |pairs| && pairs[i].0 == k
  {
    if pairs != [] {
      var init := pairs[..|pairs| - 1];
      DictOfKeys(init, k);
      if k in DictOf(init) {
        var i :| 0 <= i < |init| && init[i].0 == k;
        assert pairs[i].0 == k;
      }
      if exists i :: 0 <= i < |pairs| && pairs[i].0 == k {
        var i :| 0 <= i < |pairs| && pairs[i].0 == k;
        if i < |init| { assert init[i].0 == k; }
      }
    }
  }

  /** Each key maps to the value of its last pair. */
  lemma {:induction false} DictOfLast<K, V>(pairs: seq<(K, V)>, i: int)
    requires LastKeyAt(pairs, i)
    ensures pairs[i].0 in DictOf(pairs) && DictOf(pairs)[pairs[i].0] == pairs[i].1
  {
    var n := |pairs|;
    if i < n - 1 {
      var init := pairs[..n - 1];
      assert LastKeyAt(init, i) by {
        forall j | i < j < |init| ensures init[j].0 != init[i].0 {
          assert init[j] == pairs[j];
        }
      }
      DictOfLast(init, i);
      assert pairs[n - 1].0 != pairs[i].0;
    }
  }

  /** With two distinct keys, `dict(zip(keys, [a, b]))` has exactly the two entries. */
  lemma TwoKeyDict<V>(keys: seq<string>, a: V, b: V)
    requires |keys| == 2 && keys[0] != keys[1]
    ensures DictOf(Zip(keys, [a, b])) == map[keys[0] := a, keys[1] := b]
  {
    var z := Zip(keys, [a, b]);
    assert z == [(keys[0], a), (keys[1], b)];
    assert z[..1] == [(keys[0], a)];
    assert DictOf(z[..1]) == map[keys[0] := a] by {
      assert z[..1][..0] == [];
    }
  }
}
