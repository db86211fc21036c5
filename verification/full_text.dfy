/**
 * Decoding of a full-text search response (`FullTextSearchHandler.create_results_list`):
 * each matching document, a sparse mapping of fields, becomes a speech
 * record with a fixed set of nine keys, in the backend's order.
 */
module FullText {
  import opened Values
  import GpoUrl

  /** One document of `response.docs`. */
  type Doc = map<string, Value>

  /** The output record: the keys `bioguide`, `date`, `speaking`, `title`, `origin_url`, `speaker_*`. */
  datatype SpeechRecord = SpeechRecord(
    bioguide: Value,
    date: string,
    speaking: Value,
    title: Value,
    originUrl: string,
    speakerFirst: Value,
    speakerLast: Value,
    speakerParty: Value,
    speakerState: Value)

  /** `doc.get(key, default)`. */
  function GetOr(doc: Doc, key: string, default: Value): Value
  {
    if key in doc then doc[key] else default
  }

  /** `T\d\d:\d\d:\d\dZ` matches the ten characters at index `i`. */
  predicate TimeAt(s: string, i: int)
  {
    && 0 <= i && i + 10 <= |s|
    && s[i] == 'T' && IsDigit(s[i + 1]) && IsDigit(s[i + 2]) && s[i + 3] == ':'
    && IsDigit(s[i + 4]) && IsDigit(s[i + 5]) && s[i + 6] == ':'
    && IsDigit(s[i + 7]) && IsDigit(s[i + 8]) && s[i + 9] == 'Z'
  }

  /**
   * `re.sub(r'T\d\d\:\d\d:\d\dZ$', '', s)`: remove a time of day at the end;
   * `$` also matches just before a final newline, which is kept.
   */
  function StripTime(s: string): (r: string)
    ensures r == s || (TimeAt(s, |s| - 10) && r == s[..|s| - 10])
            || (TimeAt(s, |s| - 11) && s[|s| - 1] == '\n' && r == s[..|s| - 11] + "\n")
    ensures |s| >= 10 && TimeAt(s, |s| - 10) ==> r == s[..|s| - 10]
    ensures |s| >= 11 && s[|s| - 1] == '\n' && TimeAt(s, |s| - 11) ==> r == s[..|s| - 11] + "\n"
  {
    if |s| >= 10 && TimeAt(s, |s| - 10) then s[..|s| - 10]
    else if |s| >= 11 && s[|s| - 1] == '\n' && TimeAt(s, |s| - 11) then s[..|s| - 11] + "\n"
    else s
  }

  /** Round trip: a date followed by any time of day loses exactly that time. */
  lemma StripTimeRoundTrip(date: string, time: string)
    requires |time| == 10 && TimeAt(time, 0)
    ensures StripTime(date + time) == date
  {
    var s := date + time;
    forall k | 0 <= k < 10 ensures s[|date| + k] == time[k] { }
    assert TimeAt(s, |s| - 10);
    assert s[..|s| - 10] == date;
  }

  /** A date with no time of day at its end (nor before a final newline) is left as it is. */
  lemma StripTimeKeeps(s: string)
    requires !TimeAt(s, |s| - 10)
    requires !(TimeAt(s, |s| - 11) && s[|s| - 1] == '\n')
    ensures StripTime(s) == s
  {
  }

  /**
   * One record of the comprehension; the date is required (KeyError) and
   * must be a string, as must the path `crdoc` (TypeError).
   */
  function SpeechOf(doc: Doc): (r: Result<SpeechRecord>)
    ensures r.Ok? <==> "date" in doc && doc["date"].Str? && GetOr(doc, "crdoc", Str("")).Str?
    ensures "date" !in doc ==> r == Err(MissingKey("date"))
  {
    if "date" !in doc then Err(MissingKey("date"))
    else if !doc["date"].Str? then Err(NotAString("date"))
    else
      var crdoc := GetOr(doc, "crdoc", Str(""));
      if !crdoc.Str? then Err(NotAString("crdoc"))
      else Ok(RecordOf(doc, doc["date"].s, crdoc.s))
  }

  /** The dict the comprehension builds for a document with the given date and path. */
  function RecordOf(doc: Doc, date: string, crdoc: string): SpeechRecord
  {
    SpeechRecord(
      bioguide := GetOr(doc, "speaker_bioguide", Null),
      date := StripTime(date),
      speaking := GetOr(doc, "speaking", Null),
      title := GetOr(doc, "document_title", Str("")),
      originUrl := GpoUrl.CreateGpoUrl(crdoc),
      speakerFirst := GetOr(doc, "speaker_firstname", Null),
      speakerLast := GetOr(doc, "speaker_lastname", Null),
      speakerParty := GetOr(doc, "speaker_party", Null),
      speakerState := GetOr(doc, "speaker_state", Null))
  }

  /**
   * The fields of a decoded record: the date without its time of day, a
   * missing title as `''`, a missing path as an empty origin URL, and every
   * other missing field as `null`.
   */
  lemma SpeechFields(doc: Doc)
    requires SpeechOf(doc).Ok?
    ensures var rec := SpeechOf(doc).value;
      && rec.date == StripTime(doc["date"].s)
      && rec.title == (if "document_title" in doc then doc["document_title"] else Str(""))
      && ("crdoc" !in doc ==> rec.originUrl == "")
      && ("crdoc" in doc ==> rec.originUrl == GpoUrl.CreateGpoUrl(doc["crdoc"].s))
      && rec.bioguide == (if "speaker_bioguide" in doc then doc["speaker_bioguide"] else Null)
      && rec.speaking == (if "speaking" in doc then doc["speaking"] else Null)
      && rec.speakerFirst == (if "speaker_firstname" in doc then doc["speaker_firstname"] else Null)
      && rec.speakerLast == (if "speaker_lastname" in doc then doc["speaker_lastname"] else Null)
      && rec.speakerParty == (if "speaker_party" in doc then doc["speaker_party"] else Null)
      && rec.speakerState == (if "speaker_state" in doc then doc["speaker_state"] else Null)
  {
    GpoUrl.EmptyPathHasNoUrl();
  }

  /**
   * Evaluating a list comprehension whose element expression may raise: the
   * values in order when none raises, otherwise the first error raised.
   */
  function Collect<T>(rs: seq<Result<T>>): (r: Result<seq<T>>)
    ensures r.Ok? <==> forall k :: 0 <= k < |rs| ==> rs[k].Ok?
    ensures r.Ok? ==> |r.value| == |rs| && forall k :: 0 <= k < |rs| ==> r.value[k] == rs[k].value
    ensures r.Err? ==>
      exists k :: && 0 <= k < |rs| && rs[k] == Err(r.error)
                  && forall m :: 0 <= m < k ==> rs[m].Ok?
  {
    if rs == [] then Ok([])
    else
      match rs[0]
      case Err(e) => Err(e)
      case Ok(v) =>
        match Collect(rs[1..])
        case Err(e) =>
          (assert exists k :: && 0 <= k < |rs| && rs[k] == Err(e)
                              && forall m :: 0 <= m < k ==> rs[m].Ok? by {
             var k :| && 0 <= k < |rs[1..]| && rs[1..][k] == Err(e)
                      && forall m :: 0 <= m < k ==> rs[1..][m].Ok?;
             assert rs[1..][k] == rs[k + 1];
             forall m | 0 <= m < k + 1 ensures rs[m].Ok? {
               if m > 0 { assert rs[1..][m - 1] == rs[m]; }
             }
           }
           Err(e))
        case Ok(rest) =>
          (assert forall k :: 1 <= k < |rs| ==> rs[1..][k - 1] == rs[k];
           Ok([v] + rest))
  }

  /**
   * The list comprehension over `response.docs`: one record per document, in
   * order; the first document that cannot be decoded raises its error.
   */
  function DecodeSearch(docs: seq<Doc>): (r: Result<seq<SpeechRecord>>)
    ensures r.Ok? <==> forall k :: 0 <= k < |docs| ==> SpeechOf(docs[k]).Ok?
    ensures r.Ok? ==> |r.value| == |docs|
                      && forall k :: 0 <= k < |docs| ==> r.value[k] == SpeechOf(docs[k]).value
    ensures r.Err? ==>
      exists k :: && 0 <= k < |docs| && SpeechOf(docs[k]) == Err(r.error)
                  && forall m :: 0 <= m < k ==> SpeechOf(docs[m]).Ok?
  {
    var rs := seq(|docs|, k requires 0 <= k < |docs| => SpeechOf(docs[k]));
    var r := Collect(rs);
    assert forall k :: 0 <= k < |docs| ==> rs[k] == SpeechOf(docs[k]);
    assert r.Err? ==> exists k :: && 0 <= k < |docs| && SpeechOf(docs[k]) == Err(r.error)
                                   && forall m :: 0 <= m < k ==> SpeechOf(docs[m]).Ok? by {
      if r.Err? {
        var k :| && 0 <= k < |rs| && rs[k] == Err(r.error) && forall m :: 0 <= m < k ==> rs[m].Ok?;
        assert SpeechOf(docs[k]) == Err(r.error);
      }
    }
    r
  }
}
