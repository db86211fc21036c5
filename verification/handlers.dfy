/**
 * The `read` methods of the query handlers: collect the request parameters,
 * hand the backend's response to the matching decoder, and wrap the records
 * with the parameters in the response envelope
 * `{'results': ..., 'parameters': ...}`.
 *
 * The backend query itself (`self.func([], **params)`) is not modelled: each
 * method receives the response the backend gave for the collected parameters.
 */
module Handlers {
  import opened Values
  import Facets
  import DateFacets
  import FullText

  /** `request.GET.items()`: each query-string parameter with its value, in iteration order. */
  type Query = seq<(string, string)>

  /** `*args`: the positional arguments the URL route passes to `read`. */
  type Args = seq<string>

  datatype Envelope<R> = Envelope(results: seq<R>, parameters: Params)

  function AsParams(query: Query): seq<(string, Param)>
  {
    seq(|query|, i requires 0 <= i < |query| => (query[i].0, Text(query[i].1)))
  }

  /** The dict the loop `params[str(k)] = v` builds from the query string. */
  function QueryDict(query: Query): Params
  {
    DictOf(AsParams(query))
  }

  /** The query-string dict has the query's parameter names, each with its (last) value. */
  lemma QueryDictSpec(query: Query)
    ensures forall k :: k in QueryDict(query) <==> exists i :: 0 <= i < |query| && query[i].0 == k
    ensures forall i :: LastKeyAt(query, i) ==>
      query[i].0 in QueryDict(query) && QueryDict(query)[query[i].0] == Text(query[i].1)
  {
    var ps := AsParams(query);
    forall k ensures k in QueryDict(query) <==> exists i :: 0 <= i < |query| && query[i].0 == k {
      DictOfKeys(ps, k);
      if exists i :: 0 <= i < |ps| && ps[i].0 == k {
        var i :| 0 <= i < |ps| && ps[i].0 == k;
        assert query[i].0 == k;
      }
      if exists i :: 0 <= i < |query| && query[i].0 == k {
        var i :| 0 <= i < |query| && query[i].0 == k;
        assert ps[i].0 == k;
      }
    }
    forall i | LastKeyAt(query, i)
      ensures query[i].0 in QueryDict(query) && QueryDict(query)[query[i].0] == Text(query[i].1)
    {
      assert LastKeyAt(ps, i);
      DictOfLast(ps, i);
    }
  }

  /** `params.update(kwargs)` applied to the query-string dict: path parameters win. */
  function Merged(query: Query, kwargs: Params): Params
  {
    QueryDict(query) + kwargs
  }

  /**
   * The merged parameters: every path parameter with its own value, every
   * other query-string parameter with its value, and nothing else.
   */
  lemma MergedSpec(query: Query, kwargs: Params)
    ensures forall k :: k in kwargs ==> k in Merged(query, kwargs) && Merged(query, kwargs)[k] == kwargs[k]
    ensures forall i :: LastKeyAt(query, i) && query[i].0 !in kwargs ==>
      query[i].0 in Merged(query, kwargs) && Merged(query, kwargs)[query[i].0] == Text(query[i].1)
    ensures forall k :: k in Merged(query, kwargs) <==>
      k in kwargs || exists i :: 0 <= i < |query| && query[i].0 == k
  {
    QueryDictSpec(query);
  }

  /** The loop over `request.GET.items()` that copies the query string into `params`. */
  method QueryParams(query: Query) returns (params: Params)
    ensures params == QueryDict(query)
  {
    params := map[];
    for i := 0 to |query|
      invariant params == DictOf(AsParams(query[..i]))
    {
      var (k, v) := query[i];
      assert AsParams(query[..i + 1])[..i] == AsParams(query[..i]);
      params := params[k := Text(v)];
    }
    assert query[..|query|] == query;
  }

  /**
   * `GenericHandler.read`: the query string merged with the path parameters,
   * and the records of the first facet field under the `results_keys` names.
   * Positional arguments are accepted and ignored by `create_results_list`.
   */
  method GenericRead(query: Query, args: Args, kwargs: Params, fields: Facets.FacetFields)
    returns (r: Result<Envelope<Record>>)
    ensures r.Err? <==> fields == []
    ensures r.Err? ==> r.error == NoFacetField
    ensures r.Ok? ==> r.value.parameters == Merged(query, kwargs)
    ensures r.Ok? ==> r.value.results == Facets.FacetRecords(fields[0].1, Facets.ResultsKeys(kwargs))
  {
    var params := QueryParams(query);
    params := params + kwargs;
    var results := Facets.DecodeFacets(fields, kwargs);
    if results.Err? {
      return Err(results.error);
    }
    r := Ok(Envelope(results.value, params));
  }

  const EntityTypeParam := "entity_type"

  /** The path parameters after `PhraseByCategoryHandler.read` has chosen the result keys. */
  function CategoryKwargs(kwargs: Params): Params
  {
    var entityType := if EntityTypeParam in kwargs then Some(kwargs[EntityTypeParam]) else None;
    if entityType == Some(Text("legislator")) then kwargs[Facets.ResultsKeysParam := Keys(["bioguide", "count"])]
    else if entityType == Some(Text("state")) then kwargs[Facets.ResultsKeysParam := Keys(["state", "count"])]
    else if entityType == Some(Text("party")) then kwargs[Facets.ResultsKeysParam := Keys(["party", "count"])]
    else kwargs
  }

  /**
   * Schema selection: `legislator`, `state` and `party` select the key pairs
   * `bioguide`, `state` and `party` with `count`, and the choice is echoed
   * among the parameters; any other or absent entity type leaves the path
   * parameters as they are, hence the default `phrase`/`count` unless a
   * `results_keys` path parameter is present.
   */
  lemma CategoryKeysSelected(query: Query, kwargs: Params)
    ensures var kw := CategoryKwargs(kwargs);
      var et := if EntityTypeParam in kwargs then Some(kwargs[EntityTypeParam]) else None;
      && (et == Some(Text("legislator")) ==> Facets.ResultsKeys(kw) == ["bioguide", "count"])
      && (et == Some(Text("state")) ==> Facets.ResultsKeys(kw) == ["state", "count"])
      && (et == Some(Text("party")) ==> Facets.ResultsKeys(kw) == ["party", "count"])
      && (et !in {Some(Text("legislator")), Some(Text("state")), Some(Text("party"))} ==> kw == kwargs)
      && ((et !in {Some(Text("legislator")), Some(Text("state")), Some(Text("party"))}
           && Facets.ResultsKeysParam !in kwargs) ==> Facets.ResultsKeys(kw) == ["phrase", "count"])
      && (et in {Some(Text("legislator")), Some(Text("state")), Some(Text("party"))} ==>
          Merged(query, kw)[Facets.ResultsKeysParam] == Keys(Facets.ResultsKeys(kw)))
  {
    MergedSpec(query, CategoryKwargs(kwargs));
  }

  /**
   * `PhraseByCategoryHandler.read`: select the result keys from `entity_type`
   * by assigning into the path parameters (the statement form of
   * `CategoryKwargs`), then read as usual.
   */
  method PhraseByCategoryRead(query: Query, args: Args, kwargs: Params, fields: Facets.FacetFields)
    returns (r: Result<Envelope<Record>>)
    ensures r.Err? <==> fields == []
    ensures r.Err? ==> r.error == NoFacetField
    ensures r.Ok? ==> r.value.parameters == Merged(query, CategoryKwargs(kwargs))
    ensures r.Ok? ==>
      r.value.results == Facets.FacetRecords(fields[0].1, Facets.ResultsKeys(CategoryKwargs(kwargs)))
  {
    var kw := kwargs;
    var entityType := if EntityTypeParam in kw then Some(kw[EntityTypeParam]) else None;
    if entityType == Some(Text("legislator")) {
      kw := kw[Facets.ResultsKeysParam := Keys(["bioguide", "count"])];
    } else if entityType == Some(Text("state")) {
      kw := kw[Facets.ResultsKeysParam := Keys(["state", "count"])];
    } else if entityType == Some(Text("party")) {
      kw := kw[Facets.ResultsKeysParam := Keys(["party", "count"])];
    }
    assert kw == CategoryKwargs(kwargs);
    r := GenericRead(query, args, kw, fields);
  }

  /**
   * `GenericHandler.read` on the phrase-over-time handler, whose
   * `create_results_list(self, data)` accepts no further arguments: any
   * positional or path parameter makes the call raise (TypeError); otherwise
   * the day buckets, stably sorted by date.
   */
  method PhraseOverTimeRead(query: Query, args: Args, kwargs: Params, fields: DateFacets.DateFields)
    returns (r: Result<Envelope<DateFacets.DateCount>>)
    ensures r.Err? <==> args != [] || kwargs != map[] || fields == []
    ensures args != [] || kwargs != map[] ==> r == Err(UnexpectedArguments)
    ensures r.Err? && args == [] && kwargs == map[] ==> r.error == NoFacetField
    ensures r.Ok? ==> r.value.parameters == QueryDict(query)
    ensures r.Ok? ==> DateFacets.SortedByDate(r.value.results)
    ensures r.Ok? ==> multiset(r.value.results) == multiset(DateFacets.DayBuckets(fields[0].1))
    ensures r.Ok? ==> forall d :: DateFacets.WithDate(r.value.results, d)
                                  == DateFacets.WithDate(DateFacets.DayBuckets(fields[0].1), d)
  {
    var params := QueryParams(query);
    params := params + kwargs;
    if args != [] || kwargs != map[] {
      return Err(UnexpectedArguments);
    }
    assert params == QueryDict(query);
    var dates := DateFacets.DecodeDateFacets(fields);
    if dates.Err? {
      return Err(dates.error);
    }
    r := Ok(Envelope(dates.value, params));
  }

  /**
   * `FullTextSearchHandler.read`: only the query string is collected (path
   * parameters are neither merged nor echoed), then the documents are decoded;
   * positional and path parameters are accepted and ignored.
   */
  method FullTextSearchRead(query: Query, args: Args, kwargs: Params, docs: seq<FullText.Doc>)
    returns (r: Result<Envelope<FullText.SpeechRecord>>)
    ensures r.Ok? <==> FullText.DecodeSearch(docs).Ok?
    ensures r.Err? ==> r.error == FullText.DecodeSearch(docs).error
    ensures r.Ok? ==> r.value.parameters == QueryDict(query)
    ensures r.Ok? ==> |r.value.results| == |docs|
    ensures r.Ok? ==> forall k :: 0 <= k < |docs| ==> r.value.results[k] == FullText.SpeechOf(docs[k]).value
  {
    var params := QueryParams(query);
    var results := FullText.DecodeSearch(docs);
    if results.Err? {
      return Err(results.error);
    }
    r := Ok(Envelope(results.value, params));
  }
}
