/**
 * `create_gpo_url`: find the first Congressional Record document identifier
 * in a `crdoc` path, as the search `(CREC-(\d{4}-\d{2}-\d{2}).*?)\.xml`
 * does, and build the GPO retrieval URL from it.
 */
module GpoUrl {
  import opened Values

  const UrlHost := "http://origin.www.gpo.gov/fdsys/pkg/CREC-"
  const HeaderLength := 15  // |"CREC-dddd-dd-dd"|

  /** `CREC-` followed by a `dddd-dd-dd` date starts at index `i`. */
  predicate HeaderAt(s: string, i: int)
  {
    && 0 <= i && i + HeaderLength <= |s|
    && s[i] == 'C' && s[i + 1] == 'R' && s[i + 2] == 'E' && s[i + 3] == 'C' && s[i + 4] == '-'
    && IsDigit(s[i + 5]) && IsDigit(s[i + 6]) && IsDigit(s[i + 7]) && IsDigit(s[i + 8])
    && s[i + 9] == '-' && IsDigit(s[i + 10]) && IsDigit(s[i + 11])
    && s[i + 12] == '-' && IsDigit(s[i + 13]) && IsDigit(s[i + 14])
  }

  /** `.xml` starts at index `j`. */
  predicate XmlAt(s: string, j: int)
  {
    0 <= j && j + 4 <= |s| && s[j] == '.' && s[j + 1] == 'x' && s[j + 2] == 'm' && s[j + 3] == 'l'
  }

  /** No newline in `s[a..b]` (`.` does not match one). */
  predicate NoNewline(s: string, a: int, b: int)
  {
    forall k :: a <= k < b && 0 <= k < |s| ==> s[k] != '\n'
  }

  /** The pattern matches with its identifier group spanning `s[i..j]`. */
  predicate IsMatch(s: string, i: int, j: int)
  {
    HeaderAt(s, i) && i + HeaderLength <= j && XmlAt(s, j) && NoNewline(s, i + HeaderLength, j)
  }

  /** The non-greedy `.*?\.xml` from index `j`: the nearest `.xml` not behind a newline. */
  function LazyXml(s: string, j: nat): Option<nat>
    decreases |s| - j
  {
    if j + 4 > |s| then None
    else if XmlAt(s, j) then Some(j)
    else if s[j] == '\n' then None
    else LazyXml(s, j + 1)
  }

  /** Scan start positions from `i` on, leftmost first, as `re.search` does. */
  function SearchFrom(s: string, i: nat): Option<(nat, nat)>
    decreases |s| - i
  {
    if i + HeaderLength > |s| then None
    else if HeaderAt(s, i) && LazyXml(s, i + HeaderLength).Some? then Some((i, LazyXml(s, i + HeaderLength).value))
    else SearchFrom(s, i + 1)
  }

  lemma {:induction false} LazyXmlSpec(s: string, j: nat)
    ensures LazyXml(s, j).Some? ==>
      var e := LazyXml(s, j).value;
      j <= e && XmlAt(s, e) && NoNewline(s, j, e) && forall e' :: j <= e' < e ==> !XmlAt(s, e')
    ensures LazyXml(s, j).None? ==> forall e :: j <= e && XmlAt(s, e) ==> !NoNewline(s, j, e)
    decreases |s| - j
  {
    if j + 4 > |s| {
    } else if XmlAt(s, j) {
    } else if s[j] == '\n' {
      forall e | j <= e && XmlAt(s, e) ensures !NoNewline(s, j, e) {
        assert e != j;
      }
    } else {
      LazyXmlSpec(s, j + 1);
      assert !XmlAt(s, j);
    }
  }

  /** The match a header at `i` gives, if any: with the shortest identifier. */
  lemma MatchAt(s: string, i: nat)
    requires HeaderAt(s, i)
    ensures LazyXml(s, i + HeaderLength).Some? <==> exists j :: IsMatch(s, i, j)
    ensures LazyXml(s, i + HeaderLength).Some? ==>
      var j := LazyXml(s, i + HeaderLength).value;
      IsMatch(s, i, j) && forall j' :: j' < j ==> !IsMatch(s, i, j')
  {
    LazyXmlSpec(s, i + HeaderLength);
    if LazyXml(s, i + HeaderLength).Some? {
      var j := LazyXml(s, i + HeaderLength).value;
      assert IsMatch(s, i, j);
    }
  }

  lemma {:induction false} SearchFromSpec(s: string, i: nat)
    ensures SearchFrom(s, i).Some? ==>
      var (a, b) := SearchFrom(s, i).value;
      && i <= a && IsMatch(s, a, b)
      && (forall a', b' :: i <= a' < a ==> !IsMatch(s, a', b'))
      && (forall b' :: b' < b ==> !IsMatch(s, a, b'))
    ensures SearchFrom(s, i).None? ==> forall a, b :: i <= a ==> !IsMatch(s, a, b)
    decreases |s| - i
  {
    if i + HeaderLength > |s| {
    } else {
      if HeaderAt(s, i) { MatchAt(s, i); }
      if !(HeaderAt(s, i) && LazyXml(s, i + HeaderLength).Some?) {
        SearchFromSpec(s, i + 1);
        assert forall b :: !IsMatch(s, i, b);
      }
    }
  }

  /** The leftmost match, with the shortest identifier at that start. */
  ghost predicate FirstMatch(s: string, i: int, j: int)
  {
    && IsMatch(s, i, j)
    && (forall i', j' :: i' < i ==> !IsMatch(s, i', j'))
    && (forall j' :: j' < j ==> !IsMatch(s, i, j'))
  }

  /** The URL of the document whose identifier is `s[i..j]`. */
  function UrlFor(s: string, i: nat, j: nat): string
    requires i + HeaderLength <= j <= |s|
  {
    UrlHost + s[i + 5..i + HeaderLength] + "/html/" + s[i..j] + ".htm"
  }

  /**
   * `create_gpo_url(crdoc)`: the empty string when nothing matches; otherwise
   * the URL built from the date and identifier of the first match.
   */
  function CreateGpoUrl(crdoc: string): (r: string)
    ensures r == "" <==> forall i, j :: !IsMatch(crdoc, i, j)
    ensures r != "" ==> exists i, j :: FirstMatch(crdoc, i, j) && r == UrlFor(crdoc, i, j)
  {
    SearchFromSpec(crdoc, 0);
    match SearchFrom(crdoc, 0)
    case None => ""
    case Some((i, j)) => UrlFor(crdoc, i, j)
  }

  /**
   * The identifier in the URL starts with `CREC-` and the 10-character date
   * the URL also carries, and (the search being non-greedy) contains neither
   * `.xml` nor a newline.
   */
  lemma MatchIdentifier(s: string, i: nat, j: nat)
    requires FirstMatch(s, i, j)
    ensures var id, date := s[i..j], s[i + 5..i + HeaderLength];
      && |date| == 10 && id[..5] == "CREC-" && id[5..HeaderLength] == date
      && (forall k :: !XmlAt(id, k))
      && (forall k :: 0 <= k < |id| ==> id[k] != '\n')
  {
    var id := s[i..j];
    forall k | XmlAt(id, k) ensures false {
      assert id[k] == s[i + k] && id[k + 1] == s[i + k + 1];
      assert id[k + 2] == s[i + k + 2] && id[k + 3] == s[i + k + 3];
      assert IsMatch(s, i, i + k);
    }
    forall k | 0 <= k < |id| ensures id[k] != '\n' {
      assert id[k] == s[i + k];
    }
    assert id[..5] == "CREC-";
    assert id[5..HeaderLength] == s[i + 5..i + HeaderLength];
  }

  /** A path with no document identifier, the empty one in particular, gives no URL. */
  lemma EmptyPathHasNoUrl()
    ensures CreateGpoUrl("") == ""
  {
  }
  /** At most one match is the first. */
  lemma FirstMatchUnique(s: string, i: int, j: int, i': int, j': int)
    requires FirstMatch(s, i, j) && FirstMatch(s, i', j')
    ensures i == i' && j == j'
  {
  }

  /** The pieces of a Senate page path: its date, its document identifier and the path itself. */
  predicate SenatePage(date: string, id: string, s: string)
  {
    date == "2015-06-12" && id == "CREC-" + date + "-pt1-PgS123" && s == "/foo/" + id + ".xml"
  }

  lemma SenatePageMatch(date: string, id: string, s: string)
    requires SenatePage(date, id, s)
    ensures FirstMatch(s, 5, 31)
  {
    assert |s| == 35;
    forall k | 0 <= k < 26 ensures s[5 + k] == id[k] { }
    forall k | 0 <= k < 10 ensures id[5 + k] == date[k] { }
    forall k | 0 <= k < 4 ensures s[31 + k] == ".xml"[k] { }
    assert IsMatch(s, 5, 31);
    forall i', j' | i' < 5 ensures !IsMatch(s, i', j') {
      if 0 <= i' { assert s[i'] == "/foo/"[i']; }
    }
    forall j' | j' < 31 ensures !IsMatch(s, 5, j') {
      if 20 <= j' { assert s[j'] == id[j' - 5]; }
    }
  }

  /** The URL is determined by the first match alone. */
  lemma FirstMatchUrl(s: string, i: int, j: int)
    requires FirstMatch(s, i, j)
    ensures i + HeaderLength <= j <= |s| && CreateGpoUrl(s) == UrlFor(s, i, j)
  {
    assert CreateGpoUrl(s) != "";
    var i', j' :| FirstMatch(s, i', j') && CreateGpoUrl(s) == UrlFor(s, i', j');
    FirstMatchUnique(s, i, j, i', j');
  }

  /** The document path of a Senate page becomes its GPO HTML URL. */
  lemma SenatePageUrl(date: string, id: string, s: string)
    requires SenatePage(date, id, s)
    ensures CreateGpoUrl(s) == UrlHost + date + "/html/" + id + ".htm"
  {
    SenatePageMatch(date, id, s);
    FirstMatchUrl(s, 5, 31);
    assert s[5..31] == id;
    assert s[10..20] == id[5..15] == date;
  }
}
