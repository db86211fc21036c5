/**
 * Decoding of a faceted phrase-count response (`GenericHandler.create_results_list`):
 * the backend returns, per facet field, one flat list `[v1, c1, v2, c2, ...]`
 * of values interleaved with their counts.
 */
module Facets {
  import opened Values

  /**
   * `facet_counts.facet_fields` as the backend returns it: field names with
   * their interleaved lists, in the mapping's iteration order.
   */
  type FacetFields = seq<(string, seq<Value>)>

  const DefaultKeys: seq<string> := ["phrase", "count"]
  const ResultsKeysParam := "results_keys"

  /** `data[::2]`: the elements at even positions. */
  function Evens<T>(data: seq<T>): seq<T>
  {
    seq((|data| + 1) / 2, i requires 0 <= i < (|data| + 1) / 2 => data[2 * i])
  }

  /** `data[1::2]`: the elements at odd positions. */
  function Odds<T>(data: seq<T>): seq<T>
  {
    seq(|data| / 2, i requires 0 <= i < |data| / 2 => data[2 * i + 1])
  }

  /**
   * The records `dict(zip(keys, x)) for x in zip(phrases, counts)`: one per
   * value/count pair, in backend order; a trailing unpaired value is dropped.
   */
  function FacetRecords(data: seq<Value>, keys: seq<string>): (r: seq<Record>)
    ensures |r| == |data| / 2
    ensures forall k :: 0 <= k < |r| ==> r[k] == DictOf(Zip(keys, [data[2 * k], data[2 * k + 1]]))
  {
    var pairs := Zip(Evens(data), Odds(data));
    seq(|pairs|, k requires 0 <= k < |pairs| => DictOf(Zip(keys, [pairs[k].0, pairs[k].1])))
  }

  /** With two distinct key names, record `k` maps them to `data[2k]` and `data[2k+1]`. */
  lemma FacetRecordAt(data: seq<Value>, keys: seq<string>, k: int)
    requires |keys| == 2 && keys[0] != keys[1]
    requires 0 <= k < |data| / 2
    ensures FacetRecords(data, keys)[k] == map[keys[0] := data[2 * k], keys[1] := data[2 * k + 1]]
  {
    TwoKeyDict(keys, data[2 * k], data[2 * k + 1]);
  }

  /** The backend's encoding: a list of (value, count) pairs flattened to `[v1, c1, v2, c2, ...]`. */
  function Interleave(pairs: seq<(Value, Value)>): (r: seq<Value>)
  {
    if pairs == [] then [] else [pairs[0].0, pairs[0].1] + Interleave(pairs[1..])
  }

  lemma {:induction false} InterleaveAt(pairs: seq<(Value, Value)>, k: int)
    requires 0 <= k < |pairs|
    ensures |Interleave(pairs)| == 2 * |pairs|
    ensures Interleave(pairs)[2 * k] == pairs[k].0 && Interleave(pairs)[2 * k + 1] == pairs[k].1
  {
    if k > 0 {
      InterleaveAt(pairs[1..], k - 1);
    } else if |pairs| > 1 {
      InterleaveAt(pairs[1..], 0);
    }
  }

  /**
   * Round trip: decoding the interleaving of n (value, count) pairs gives
   * exactly n records, each holding its pair under the two key names, in order.
   */
  lemma FacetRoundTrip(pairs: seq<(Value, Value)>, keys: seq<string>)
    requires |keys| == 2 && keys[0] != keys[1]
    ensures var r := FacetRecords(Interleave(pairs), keys);
      && |r| == |pairs|
      && forall k :: 0 <= k < |pairs| ==> r[k] == map[keys[0] := pairs[k].0, keys[1] := pairs[k].1]
  {
    var data := Interleave(pairs);
    if pairs != [] { InterleaveAt(pairs, 0); }
    forall k | 0 <= k < |pairs|
      ensures FacetRecords(data, keys)[k] == map[keys[0] := pairs[k].0, keys[1] := pairs[k].1]
    {
      InterleaveAt(pairs, k);
      FacetRecordAt(data, keys, k);
    }
  }

  /**
   * The key names of the records: `kwargs.get('results_keys', ['phrase', 'count'])`.
   * `zip` iterates a plain string parameter character by character.
   */
  function ResultsKeys(kwargs: Params): (r: seq<string>)
    ensures ResultsKeysParam !in kwargs ==> r == DefaultKeys
    ensures ResultsKeysParam in kwargs && kwargs[ResultsKeysParam].Keys? ==> r == kwargs[ResultsKeysParam].names
  {
    if ResultsKeysParam !in kwargs then DefaultKeys
    else match kwargs[ResultsKeysParam]
      case Keys(names) => names
      case Text(s) => seq(|s|, i requires 0 <= i < |s| => [s[i]])
  }

  /**
   * `GenericHandler.create_results_list`: decode the first facet field of the
   * response; a response without any facet field raises (IndexError).
   */
  function DecodeFacets(fields: FacetFields, kwargs: Params): (r: Result<seq<Record>>)
    ensures r.Err? <==> fields == []
    ensures r.Err? ==> r.error == NoFacetField
    ensures r.Ok? ==> |r.value| == |fields[0].1| / 2
  {
    if fields == [] then Err(NoFacetField)
    else Ok(FacetRecords(fields[0].1, ResultsKeys(kwargs)))
  }
}
