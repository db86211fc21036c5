# Capitol Words API: result shaping

This project models the result-shaping layer of the Capitol Words API
(`cwod_site/cwod/views.py`). The HTTP handlers take the search backend's
response and turn it into flat JSON records. They also echo back the request
parameters they used. The model covers these pieces:

- **Facet decoding** (`GenericHandler.create_results_list`). A flat
  interleaved list `[v1, c1, v2, c2, ...]` becomes one two-key record per pair.
  The keys are the `results_keys` names, or `phrase`/`count` by default.
- **Parameter collection** (`GenericHandler.read`). The query string is copied,
  then the path parameters are merged over it.
- **Schema selection** (`PhraseByCategoryHandler.read`). The entity type
  `legislator`, `state` or `party` selects the result key names.
- **Date-facet decoding** (`PhraseOverTimeHandler.create_results_list`). Day
  buckets are kept, their keys are trimmed with `rstrip('T00:00:00Z')`, and the
  result is stably sorted by date.
- **Full-text decoding** (`FullTextSearchHandler.create_results_list`). Each
  document becomes a nine-field speech record. Its date loses its time of day,
  and its origin URL is built by `create_gpo_url`.
- **GPO URL synthesis** (`create_gpo_url`). This is the leftmost non-greedy
  regular-expression search for a `CREC-dddd-dd-dd...xml` identifier.
- **Legislator shaping** (`LegislatorLookupHandler.read`). The identity comes
  from the first row, with one session per stored row.

The modules are `Values`, `Text`, `Facets`, `DateFacets`, `FullText`, `GpoUrl`,
`Legislators` and `Handlers`:

- `Values` holds the shared values, the errors and Python's `dict`/`zip`.
- `Text` holds `str.find`, `str.rstrip` and string ordering.
- `Handlers` holds the `read` methods.

Python exceptions are modelled as the `Err` case of a `Result`:

- an `IndexError` from `keys()[0]` on an empty mapping;
- a `KeyError` for a document without `date`;
- a `TypeError` from a regular expression applied to a non-string, or from arguments passed to a method that takes none beyond its data.

Where the code and its description differ, the model follows the code:

- **Where `entity_type` is read from.** The phrase-by-category handler reads
  `entity_type` from the path parameters (`kwargs`), not from the query string.
  So a query-string `entity_type` leaves the default `phrase`/`count` keys in
  place (`Handlers.CategoryKwargs`).
- **Path parameters on the date handler.** `PhraseOverTimeHandler.create_results_list`
  accepts no arguments beyond its data. So the inherited `read` raises
  `TypeError` whenever the route passes a positional or path parameter
  (`Handlers.PhraseOverTimeRead`).
- **Which date keys count as day buckets.** The date decoder keeps every key
  that merely *contains* `T00:00:00Z`, not only keys that end with it.
- **How day keys are trimmed.** It trims with character-set `rstrip`, so it can
  eat a date's own trailing zeros (see Findings).
- **What `read` echoes.** The generic `read` echoes `results_keys` among the
  returned parameters whenever the category handler set it.

## Model

| member | source | states |
|---|---|---|
| Values.Zip | cwod_site/cwod/views.py:35 | `zip` pairs elements position by position, up to the shorter length |
| Values.DictOfKeys | cwod_site/cwod/views.py:35 | `dict(pairs)` has exactly the keys occurring in the pairs |
| Values.DictOfLast | cwod_site/cwod/views.py:39-41 | in `dict(pairs)`, or in a loop of `d[k] = v`, each key holds the value of its last pair |
| Values.TwoKeyDict | cwod_site/cwod/views.py:35 | `dict(zip(keys, (a, b)))` with two distinct key names is exactly `{keys[0]: a, keys[1]: b}` |
| Facets.FacetRecords | cwod_site/cwod/views.py:30-35 | there are `len(data)//2` records, a trailing unpaired value being dropped; record k is built from `data[2k]` and `data[2k+1]` |
| Facets.FacetRecordAt | cwod_site/cwod/views.py:30-35 | with two distinct key names, record k maps the first to `data[2k]` and the second to `data[2k+1]`, in backend order |
| Facets.InterleaveAt | cwod_site/cwod/views.py:30-31 | the interleaved list has 2n elements, pair k being at positions 2k and 2k+1 |
| Facets.FacetRoundTrip | cwod_site/cwod/views.py:27-36 | decoding the interleaving of n (value, count) pairs gives n records, record k holding pair k under the two names |
| Facets.ResultsKeys | cwod_site/cwod/views.py:33 | the key names are `phrase`/`count` without a `results_keys` parameter, and the given list with one |
| Facets.DecodeFacets | cwod_site/cwod/views.py:27-36 | it raises (IndexError) exactly when the response has no facet field, and otherwise yields half as many records as the first field has elements |
| Text.FindFromSpec | cwod_site/cwod/views.py:83 | `find` returns the first occurrence at or after the start, and -1 exactly when there is none |
| Text.FindContains | cwod_site/cwod/views.py:83 | `find(sub) > -1` holds exactly when `sub` occurs in the string |
| Text.RStrip | cwod_site/cwod/views.py:84 | `rstrip(chars)` gives a prefix that does not end in a character of the set, and every removed character is in the set |
| Text.RStripUnique | cwod_site/cwod/views.py:84 | those three properties determine the result of `rstrip` |
| Text.LexLessIrreflexive | cwod_site/cwod/views.py:87 | no string sorts before itself |
| Text.LexLessTransitive | cwod_site/cwod/views.py:87 | string order is transitive |
| Text.LexLessAsymmetric | cwod_site/cwod/views.py:87 | string order is asymmetric |
| Text.LexLessTotal | cwod_site/cwod/views.py:87 | any two distinct strings are ordered one way or the other |
| Text.LexLeTotalOrder | cwod_site/cwod/views.py:87 | less-or-equal on strings is a total order |
| Text.LexLessAfterCommonPrefix | cwod_site/cwod/views.py:87 | a common prefix does not change the order of two non-empty suffixes decided by their first characters |
| DateFacets.DayBucketsSpec | cwod_site/cwod/views.py:82-85 | exactly the entries whose key contains `T00:00:00Z` give a record, each with its own value as count; there are at most as many records as entries |
| DateFacets.DayBucketContains | cwod_site/cwod/views.py:83 | the filter is a substring test, not a suffix test |
| DateFacets.BucketDate | cwod_site/cwod/views.py:84 | each date is the longest prefix of its key that does not end in `T`, `0`, `:` or `Z` |
| DateFacets.InsertPermutes | cwod_site/cwod/views.py:87 | an insertion step adds exactly the inserted record |
| DateFacets.InsertSorted | cwod_site/cwod/views.py:87 | an insertion step keeps a list sorted by date |
| DateFacets.InsertStable | cwod_site/cwod/views.py:87 | an insertion step puts the new record before the existing records with an equal date |
| DateFacets.SortByDateSpec | cwod_site/cwod/views.py:87 | the sort by date is a permutation, its output is sorted, and records with equal dates keep their relative order |
| DateFacets.DecodeDateFacets | cwod_site/cwod/views.py:77-88 | the loop collects the day buckets; the result is sorted by date, is a stable permutation of the buckets, and a response without a date facet raises (IndexError) |
| DateFacets.DayKey | cwod_site/cwod/views.py:83-84 | a date not ending in a marker character, followed by `T00:00:00Z`, is kept and trimmed back to that date |
| DateFacets.BucketsOfThree | cwod_site/cwod/views.py:82-85 | entries are visited in order and a metadata entry is skipped |
| DateFacets.ExampleBuckets | cwod_site/cwod/views.py:82-85 | two day entries and a metadata entry give the two days' records, with counts unchanged |
| DateFacets.ExampleSort | cwod_site/cwod/views.py:87 | two records listed later-date first come out in date order |
| DateFacets.PhraseOverTimeExample | cwod_site/cwod/views.py:77-88 | days 2 and 1 of January 2020 and a `gap` entry come out as day 1 then day 2, without the gap |
| DateFacets.TenthOfMonthIsTruncated | cwod_site/cwod/views.py:84 | as written, the bucket `2020-01-10T00:00:00Z` is reported as date `2020-01-1`; the intended decoding reports `2020-01-10` |
| DateFacets.DayOfKey | cwod_site/cwod/views.py:84 | the intended trimming removes `T00:00:00Z` only as an exact suffix, and gives back a date that re-forms the key |
| DateFacets.DayOfKeyRoundTrip | cwod_site/cwod/views.py:84 | the intended trimming of date + `T00:00:00Z` gives back the date |
| DateFacets.IntendedBuckets | cwod_site/cwod/views.py:82-85 | with exact suffix removal, a record exists for a date exactly when its key is among the entries, with that entry's count |
| DateFacets.IntendedDateFacets | cwod_site/cwod/views.py:77-88 | the intended decoding is sorted by date, is a stable permutation of the exactly-trimmed buckets, and holds exactly the days present, with their counts |
| DateFacets.WithDateEmpty | cwod_site/cwod/views.py:87 | no record has date d exactly when the records with date d form the empty list |
| DateFacets.WithDateTwo | cwod_site/cwod/views.py:87 | two records with the same date at distinct positions both appear among the records with that date |
| DateFacets.IntendedBucketsOnePerDay | cwod_site/cwod/views.py:82-85 | with distinct keys, as a mapping's are, the exactly-trimmed buckets hold at most one record per date |
| DateFacets.IntendedDaysDistinct | cwod_site/cwod/views.py:77-88 | with distinct keys, the intended decoding reports each day at most once |
| FullText.StripTime | cwod_site/cwod/views.py:106 | a trailing `Tdd:dd:ddZ` is removed; one just before a final newline is removed and the newline kept; otherwise the date is unchanged |
| FullText.StripTimeRoundTrip | cwod_site/cwod/views.py:106 | a date followed by any time of day loses exactly that time |
| FullText.StripTimeKeeps | cwod_site/cwod/views.py:106 | a date without a time of day at its end is left unchanged |
| FullText.SpeechOf | cwod_site/cwod/views.py:105-114 | a document is decoded exactly when it has a string `date` and a string or absent `crdoc`; a missing date raises KeyError |
| FullText.SpeechFields | cwod_site/cwod/views.py:105-114 | the date loses its time of day, a missing title becomes `''`, a missing path gives an empty URL, and other missing fields become null |
| FullText.Collect | cwod_site/cwod/views.py:105-115 | a comprehension yields all values in order when no element raises, and otherwise the first error |
| FullText.DecodeSearch | cwod_site/cwod/views.py:104-115 | one record per document in order, record k built from document k, or the error of the first document that cannot be decoded |
| GpoUrl.LazyXmlSpec | cwod_site/cwod/views.py:149 | the non-greedy `.*?\.xml` finds the nearest `.xml` not behind a newline |
| GpoUrl.MatchAt | cwod_site/cwod/views.py:149 | a header matches exactly when some `.xml` follows it, and the match ends at the nearest one |
| GpoUrl.SearchFromSpec | cwod_site/cwod/views.py:149 | the search returns the leftmost match with its shortest identifier, and nothing exactly when there is no match |
| GpoUrl.CreateGpoUrl | cwod_site/cwod/views.py:144-155 | the URL is `''` exactly when nothing matches; otherwise it is built from the date and identifier of the first match |
| GpoUrl.MatchIdentifier | cwod_site/cwod/views.py:149-154 | the identifier starts with `CREC-` and the 10-character date the URL carries, and contains neither `.xml` nor a newline |
| GpoUrl.EmptyPathHasNoUrl | cwod_site/cwod/views.py:109 | a document without `crdoc` (the empty path) gets the empty URL |
| GpoUrl.FirstMatchUnique | cwod_site/cwod/views.py:149 | there is at most one first match |
| GpoUrl.FirstMatchUrl | cwod_site/cwod/views.py:149-155 | the URL is determined by the first match alone |
| GpoUrl.SenatePageMatch | cwod_site/cwod/views.py:149 | in `/foo/CREC-2015-06-12-pt1-PgS123.xml` the first match is the identifier `CREC-2015-06-12-pt1-PgS123` |
| GpoUrl.SenatePageUrl | cwod_site/cwod/views.py:144-155 | that path becomes `http://origin.www.gpo.gov/fdsys/pkg/CREC-2015-06-12/html/CREC-2015-06-12-pt1-PgS123.htm` |
| Legislators.LookupLegislator | cwod_site/cwod/views.py:120-141 | an absent or empty id gives `{}` whatever is stored, and no rows gives a 404; otherwise the identity comes from the first row and there is one session per row, each from its own row, in order |
| Handlers.QueryDictSpec | cwod_site/cwod/views.py:39-41 | the copied query string has exactly the query's parameter names, each with its last value |
| Handlers.MergedSpec | cwod_site/cwod/views.py:39-43 | after the merge every path parameter has its own value, other query parameters keep theirs, and nothing else is present |
| Handlers.QueryParams | cwod_site/cwod/views.py:39-41 | the copying loop builds the query-string dict |
| Handlers.GenericRead | cwod_site/cwod/views.py:38-50 | the parameters are the merged dict, and the results are the first facet field's records under the `results_keys` names; positional arguments are ignored; a response without a facet field raises IndexError, and only then |
| Handlers.CategoryKeysSelected | cwod_site/cwod/views.py:62-70 | `legislator`, `state` and `party` select `bioguide`, `state` and `party` with `count`, and the choice is echoed; any other or absent entity type changes nothing and so leaves `phrase`/`count` in place |
| Handlers.PhraseByCategoryRead | cwod_site/cwod/views.py:62-70 | the generic read with the key names the entity type selects, echoed among the parameters; IndexError exactly when there is no facet field |
| Handlers.PhraseOverTimeRead | cwod_site/cwod/views.py:38-50 | any positional or path parameter raises TypeError; otherwise the query string is echoed and the results are the day buckets stably sorted by date (sorted, a permutation, same-date records in input order), or IndexError without a date facet |
| Handlers.FullTextSearchRead | cwod_site/cwod/views.py:95-102 | only the query string is echoed, positional and path parameters are ignored, and the results are the decoded documents, or the error of the first document that cannot be decoded |

## Left out

- **Django and Piston plumbing.** Routing, `HttpResponse`, `Resource`,
  `allowed_methods` and the JSON serialisation of the returned dicts are not
  modelled.
- **The backend query functions.** `most_frequent_phrases`,
  `phrase_by_category`, `phrase_over_time` and `full_text_search` are network
  calls to a search server; their source is not part of this model. Each
  `read` takes the backend's response as an input. Nothing ties that response
  to the parameters it was queried with.
- **The legislator database lookup.** `get_list_or_404` and the `Legislator`
  model are database access. `LookupLegislator` takes the rows returned for
  the id. An empty list stands for the 404.
- **Runtime introspection.** `_allowed_keys` reads the query function's
  argument names, and has no counterpart here.
- **Environment setup.** The `sys.path` change at import time is not
  modelled.
- **Navigation errors in the response.** The response is given already
  navigated to `facet_counts.facet_fields`, `facet_counts.facet_dates` or
  `response.docs`. The errors a malformed response would raise on that path
  are not modelled.
- **Dictionary iteration order.** Python 2 dict order is given as the order
  of a sequence of (name, payload) pairs. `keys()[0]` is the first of them.
- **Multi-valued query parameters.** `request.GET.items()` is modelled as one
  (name, value) pair per value. A repeated name keeps its last value, and
  Django's own choice among repeated values is not modelled.
- **Legislator column types.** `Legislator` columns are modelled as strings,
  and `congress` as an integer.
- **Non-ASCII parameter names.** `str(k)` on a query-string name is the
  identity here. Under Python 2 it raises `UnicodeEncodeError` for a name with
  a non-ASCII character, and the model does not produce that error.
- **The sort algorithm.** `list.sort` is modelled by a stable insertion sort
  over a sequence. Any stable sort gives the same output, but the in-place
  array algorithm is not modelled.

## Findings

| source | as written | input that shows it | evidently intended | confidence | as-written member | corrected member |
|---|---|---|---|---|---|---|
| cwod_site/cwod/views.py:84 | `k.rstrip('T00:00:00Z')` strips any trailing run of the characters `T`, `0`, `:`, `Z`, so the date's own trailing zeros are removed too | the day bucket `2020-01-10T00:00:00Z` is reported under the date `2020-01-1` (likewise the 20th and the 30th) | remove the suffix `T00:00:00Z` exactly, giving `2020-01-10` | high (by the semantics of `rstrip`; not executed) | DateFacets.TenthOfMonthIsTruncated | DateFacets.IntendedDateFacets |

The handler model `Handlers.PhraseOverTimeRead` keeps the code's behaviour
(`DateFacets.DecodeDateFacets`). The corrected decoding
`DateFacets.IntendedDateFacets` uses the exact-suffix trimming
`DateFacets.DayOfKey` (round trip `DateFacets.DayOfKeyRoundTrip`) and the
same stable sort. The model proves that this decoding is sorted, is a stable
permutation of the exactly-trimmed buckets, and holds exactly the days
present, with their counts. With distinct keys it also reports each day once
(`DateFacets.IntendedDaysDistinct`).
