/**
 * Decoding of a date-facet (phrase over time) response
 * (`PhraseOverTimeHandler.create_results_list`): the backend returns, per
 * facet, a mapping from ISO timestamps to counts together with metadata
 * entries (gap, start, end); day buckets are kept, their keys trimmed to a
 * date, and the result sorted by date.
 */
module DateFacets {
  import opened Values
  import opened Text

  /** One facet's mapping, as the (key, value) items of its iteration. */
  type DateItems = seq<(string, Value)>

  /** `facet_counts.facet_dates`: facet names with their mappings, in iteration order. */
  type DateFields = seq<(string, DateItems)>

  /** An output record `{'date': ..., 'count': ...}`. */
  datatype DateCount = DateCount(date: string, count: Value)

  /** The marker a day bucket's key carries; also the character set `rstrip` is given. */
  const DayMarker := "T00:00:00Z"

  /** The filter `k.find('T00:00:00Z') > -1`. */
  predicate IsDayBucket(key: string)
  {
    Find(key, DayMarker) > -1
  }

  /** The record for one kept entry: its key trimmed with `rstrip('T00:00:00Z')`, its value as count. */
  function Bucket(item: (string, Value)): DateCount
  {
    DateCount(RStrip(item.0, DayMarker), item.1)
  }

  /** The list the source's loop appends to, before sorting. */
  function DayBuckets(items: DateItems): seq<DateCount>
  {
    if items == [] then []
    else
      var last := items[|items| - 1];
      DayBuckets(items[..|items| - 1]) + (if IsDayBucket(last.0) then [Bucket(last)] else [])
  }

  /**
   * Exactly the entries whose key contains the day marker are kept, each with
   * its own value as count; so there are at most as many records as entries.
   */
  lemma {:induction false} DayBucketsSpec(items: DateItems)
    ensures |DayBuckets(items)| <= |items|
    ensures forall e :: e in items && IsDayBucket(e.0) ==> Bucket(e) in DayBuckets(items)
    ensures forall b :: b in DayBuckets(items) ==> exists e :: e in items && IsDayBucket(e.0) && b == Bucket(e)
  {
    if items != [] {
      var init := items[..|items| - 1];
      DayBucketsSpec(init);
      assert items == init + [items[|items| - 1]];
    }
  }

  /** `IsDayBucket` is the substring test it is meant to be. */
  lemma DayBucketContains(key: string)
    ensures IsDayBucket(key) <==> exists i :: OccursAt(key, DayMarker, i)
  {
    FindContains(key, DayMarker);
  }

  /**
   * Each output date is a prefix of its key that does not end in one of
   * `T`, `0`, `:`, `Z`, and it is the longest such prefix: everything
   * removed belongs to that set.
   */
  lemma BucketDate(item: (string, Value))
    ensures var d := Bucket(item).date;
      && d <= item.0
      && (d == [] || d[|d| - 1] !in {'T', '0', ':', 'Z'})
      && forall i :: |d| <= i < |item.0| ==> item.0[i] in {'T', '0', ':', 'Z'}
  {
  }

  /** Records sorted non-decreasingly by date, as Python compares strings. */
  predicate SortedByDate(s: seq<DateCount>)
  {
    forall i, j :: 0 <= i < j < |s| ==> LexLe(s[i].date, s[j].date)
  }

  /** The records of `s` with date `d`, in order. */
  function WithDate(s: seq<DateCount>, d: string): seq<DateCount>
  {
    if s == [] then [] else (if s[0].date == d then [s[0]] else []) + WithDate(s[1..], d)
  }

  /** Insert `x` before the first record whose date is not smaller. */
  function InsertByDate(x: DateCount, s: seq<DateCount>): seq<DateCount>
  {
    if s == [] then [x]
    else if LexLess(s[0].date, x.date) then [s[0]] + InsertByDate(x, s[1..])
    else [x] + s
  }

  /** `list.sort(key=itemgetter('date'))`: a stable sort by date. */
  function SortByDate(s: seq<DateCount>): seq<DateCount>
  {
    if s == [] then [] else InsertByDate(s[0], SortByDate(s[1..]))
  }

  lemma {:induction false} InsertPermutes(x: DateCount, s: seq<DateCount>)
    ensures multiset(InsertByDate(x, s)) == multiset(s) + multiset{x}
  {
    if s != [] && LexLess(s[0].date, x.date) {
      InsertPermutes(x, s[1..]);
      assert s == [s[0]] + s[1..];
    }
  }

  lemma {:induction false} InsertSorted(x: DateCount, s: seq<DateCount>)
    requires SortedByDate(s)
    ensures SortedByDate(InsertByDate(x, s))
  {
    if s == [] {
    } else if LexLess(s[0].date, x.date) {
      var rest := InsertByDate(x, s[1..]);
      InsertSorted(x, s[1..]);
      InsertPermutes(x, s[1..]);
      var t := [s[0]] + rest;
      forall j | 0 < j < |t| ensures LexLe(s[0].date, t[j].date) {
        assert t[j] in multiset(rest);
        if t[j] == x {
          LexLessAsymmetric(s[0].date, x.date);
        } else {
          assert t[j] in multiset(s[1..]);
          var k :| 0 <= k < |s[1..]| && s[1..][k] == t[j];
          assert s[k + 1] == t[j];
        }
      }
    } else {
      var t := [x] + s;
      forall j | 0 < j < |t| ensures LexLe(x.date, t[j].date) {
        LexLeTotalOrder(x.date, s[0].date, t[j].date);
      }
    }
  }

  lemma {:induction false} InsertStable(x: DateCount, s: seq<DateCount>, d: string)
    ensures WithDate(InsertByDate(x, s), d) == (if x.date == d then [x] else []) + WithDate(s, d)
  {
    var own := if x.date == d then [x] else [];
    if s == [] {
      assert [x][1..] == [];
    } else if LexLess(s[0].date, x.date) {
      var rest := InsertByDate(x, s[1..]);
      var head := if s[0].date == d then [s[0]] else [];
      InsertStable(x, s[1..], d);
      assert ([s[0]] + rest)[1..] == rest;
      assert WithDate(InsertByDate(x, s), d) == head + WithDate(rest, d);
      assert WithDate(s, d) == head + WithDate(s[1..], d);
      if x.date == d { LexLessIrreflexive(d); }
      assert head + own == own + head;
    } else {
      assert ([x] + s)[1..] == s;
    }
  }

  /**
   * The sort is a permutation, its output is sorted by date, and records
   * with equal dates keep their relative order (stability).
   */
  lemma {:induction false} SortByDateSpec(s: seq<DateCount>)
    ensures multiset(SortByDate(s)) == multiset(s)
    ensures SortedByDate(SortByDate(s))
    ensures forall d :: WithDate(SortByDate(s), d) == WithDate(s, d)
  {
    if s != [] {
      SortByDateSpec(s[1..]);
      InsertPermutes(s[0], SortByDate(s[1..]));
      InsertSorted(s[0], SortByDate(s[1..]));
      assert s == [s[0]] + s[1..];
      forall d ensures WithDate(SortByDate(s), d) == WithDate(s, d) {
        InsertStable(s[0], SortByDate(s[1..]), d);
      }
    }
  }

  /**
   * `PhraseOverTimeHandler.create_results_list`: the first facet's day
   * buckets, trimmed and sorted by date; no facet at all raises (IndexError).
   */
  method DecodeDateFacets(fields: DateFields) returns (r: Result<seq<DateCount>>)
    ensures r.Err? <==> fields == []
    ensures r.Err? ==> r.error == NoFacetField
    ensures r.Ok? ==> SortedByDate(r.value)
    ensures r.Ok? ==> multiset(r.value) == multiset(DayBuckets(fields[0].1))
    ensures r.Ok? ==> forall d :: WithDate(r.value, d) == WithDate(DayBuckets(fields[0].1), d)
  {
    if fields == [] {
      return Err(NoFacetField);
    }
    var data := fields[0].1;
    var dates: seq<DateCount> := [];
    for i := 0 to |data|
      invariant dates == DayBuckets(data[..i])
    {
      var (k, v) := data[i];
      if Find(k, DayMarker) > -1 {
        var date := RStrip(k, DayMarker);
        dates := dates + [DateCount(date, v)];
      }
      assert data[..i + 1][..i] == data[..i];
    }
    assert data[..|data|] == data;
    SortByDateSpec(dates);
    dates := SortByDate(dates);
    r := Ok(dates);
  }

  // The trimming as intended: remove the day marker only as an exact suffix.

  /** The date of a day-bucket key: the key without a trailing `T00:00:00Z`, if it has one. */
  function DayOfKey(key: string): (r: Option<string>)
    ensures r.Some? <==> |key| >= |DayMarker| && key[|key| - |DayMarker|..] == DayMarker
    ensures r.Some? ==> r.value + DayMarker == key
  {
    if |key| >= |DayMarker| && key[|key| - |DayMarker|..] == DayMarker
    then Some(key[..|key| - |DayMarker|])
    else None
  }

  /** Round trip: the key of any date decodes to that date. */
  lemma DayOfKeyRoundTrip(date: string)
    ensures DayOfKey(date + DayMarker) == Some(date)
  {
    var key := date + DayMarker;
    assert key[|key| - |DayMarker|..] == DayMarker;
    assert key[..|key| - |DayMarker|] == date;
  }

  /** The day buckets with exactly-stripped dates. */
  function IntendedBuckets(items: DateItems): (r: seq<DateCount>)
    ensures forall b :: b in r ==> (b.date + DayMarker, b.count) in items
    ensures forall date, v :: (date + DayMarker, v) in items ==> DateCount(date, v) in r
  {
    if items == [] then []
    else
      var rest := IntendedBuckets(items[1..]);
      assert forall e :: e in items[1..] ==> e in items;
      assert forall e :: e in items ==> e == items[0] || e in items[1..];
      match DayOfKey(items[0].0)
      case Some(date) => assert (date + DayMarker, items[0].1) == items[0];
        [DateCount(date, items[0].1)] + rest
      case None =>
        (assert forall date, v :: (date + DayMarker, v) != items[0] by {
           forall date, v ensures (date + DayMarker, v) != items[0] {
             if (date + DayMarker, v) == items[0] { DayOfKeyRoundTrip(date); }
           }
         }
         rest)
  }

  /** The date-facet decoding as intended: exact suffix removal, then the same stable sort. */
  function IntendedDateFacets(items: DateItems): (r: seq<DateCount>)
    ensures SortedByDate(r)
    ensures multiset(r) == multiset(IntendedBuckets(items))
    ensures forall d :: WithDate(r, d) == WithDate(IntendedBuckets(items), d)
    ensures forall b :: b in r ==> (b.date + DayMarker, b.count) in items
    ensures forall date, v :: (date + DayMarker, v) in items ==> DateCount(date, v) in r
  {
    var buckets := IntendedBuckets(items);
    SortByDateSpec(buckets);
    assert forall b :: b in SortByDate(buckets) <==> b in buckets by {
      forall b ensures b in SortByDate(buckets) <==> b in buckets {
        assert b in SortByDate(buckets) <==> b in multiset(SortByDate(buckets));
      }
    }
    SortByDate(buckets)
  }

  /** The keys of a mapping's items are pairwise distinct. */
  predicate DistinctKeys(items: DateItems)
  {
    forall i, j :: 0 <= i < j < |items| ==> items[i].0 != items[j].0
  }

  /** A record with date `d` in `s` appears in `WithDate(s, d)`; none does when it is empty. */
  lemma {:induction false} WithDateEmpty(s: seq<DateCount>, d: string)
    ensures WithDate(s, d) == [] <==> forall b :: b in s ==> b.date != d
  {
    if s != [] {
      WithDateEmpty(s[1..], d);
      assert forall b :: b in s <==> b == s[0] || b in s[1..];
    }
  }

  /** Two records with date `d` at distinct positions put at least two records in `WithDate(s, d)`. */
  lemma {:induction false} WithDateTwo(s: seq<DateCount>, i: int, j: int, d: string)
    requires 0 <= i < j < |s| && s[i].date == d && s[j].date == d
    ensures |WithDate(s, d)| >= 2
  {
    if i == 0 {
      WithDateEmpty(s[1..], d);
      assert s[1..][j - 1] == s[j];
    } else {
      WithDateTwo(s[1..], i - 1, j - 1, d);
    }
  }

  /** With distinct keys, the intended buckets hold at most one record per date. */
  lemma {:induction false} IntendedBucketsOnePerDay(items: DateItems, d: string)
    requires DistinctKeys(items)
    ensures |WithDate(IntendedBuckets(items), d)| <= 1
  {
    if items != [] {
      var rest := IntendedBuckets(items[1..]);
      assert DistinctKeys(items[1..]) by {
        forall i, j | 0 <= i < j < |items[1..]| ensures items[1..][i].0 != items[1..][j].0 {
          assert items[1..][i] == items[i + 1] && items[1..][j] == items[j + 1];
        }
      }
      IntendedBucketsOnePerDay(items[1..], d);
      match DayOfKey(items[0].0)
      case None =>
      case Some(date) =>
        var r := [DateCount(date, items[0].1)] + rest;
        assert r[1..] == rest;
        if date == d {
          forall b | b in rest ensures b.date != d {
            var k :| 0 <= k < |items[1..]| && items[1..][k] == (b.date + DayMarker, b.count);
            assert items[k + 1].0 == b.date + DayMarker && items[0].0 == d + DayMarker;
            assert items[0].0 != items[k + 1].0;
          }
          WithDateEmpty(rest, d);
        }
    }
  }

  /** With distinct keys (as a mapping's are), the intended decoding reports each day once. */
  lemma IntendedDaysDistinct(items: DateItems)
    requires DistinctKeys(items)
    ensures var r := IntendedDateFacets(items);
      forall i, j :: 0 <= i < j < |r| ==> r[i].date != r[j].date
  {
    var r := IntendedDateFacets(items);
    forall i, j | 0 <= i < j < |r| ensures r[i].date != r[j].date {
      if r[i].date == r[j].date {
        WithDateTwo(r, i, j, r[i].date);
        IntendedBucketsOnePerDay(items, r[i].date);
        assert false;
      }
    }
  }

  /**
   * As written, the trimming also eats a date's own trailing zero: the day
   * bucket of 10 January 2020 is reported under the date "2020-01-1", while
   * the intended decoding reports "2020-01-10".
   */
  lemma TenthOfMonthIsTruncated()
    ensures Bucket(("2020-01-10T00:00:00Z", Int(7))).date == "2020-01-1"
    ensures IntendedDateFacets([("2020-01-10T00:00:00Z", Int(7))]) == [DateCount("2020-01-10", Int(7))]
  {
    var key := "2020-01-10T00:00:00Z";
    RStripUnique(key, DayMarker, "2020-01-1");
    DayOfKeyRoundTrip("2020-01-10");
    assert "2020-01-10" + DayMarker == key;
    var items := [(key, Int(7))];
    assert IntendedBuckets(items[1..]) == [];
    assert IntendedBuckets(items) == [DateCount("2020-01-10", Int(7))];
  }

  /** A date not ending in a marker character, followed by the marker: kept, and trimmed back to the date. */
  lemma DayKey(date: string, key: string)
    requires key == date + DayMarker
    requires date == [] || date[|date| - 1] !in DayMarker
    ensures IsDayBucket(key) && RStrip(key, DayMarker) == date
  {
    assert key[|date|..] == DayMarker;
    assert OccursAt(key, DayMarker, |date|);
    FindContains(key, DayMarker);
    RStripUnique(key, DayMarker, date);
  }

  /** Three entries of which the last is metadata: the first two give the records, in order. */
  lemma BucketsOfThree(a: (string, Value), b: (string, Value), c: (string, Value))
    requires IsDayBucket(a.0) && IsDayBucket(b.0) && !IsDayBucket(c.0)
    ensures DayBuckets([a, b, c]) == [Bucket(a), Bucket(b)]
  {
    assert [a][..0] == [];
    assert DayBuckets([a]) == [Bucket(a)];
    assert [a, b][..1] == [a];
    assert DayBuckets([a, b]) == [Bucket(a), Bucket(b)];
    assert [a, b, c][..2] == [a, b];
  }

  /** Two day entries and one metadata entry give the two days' records, counts unchanged. */
  lemma ExampleBuckets(e2: (string, Value), e1: (string, Value), gap: (string, Value), d2: string, d1: string)
    requires e2.0 == d2 + DayMarker && e1.0 == d1 + DayMarker && !IsDayBucket(gap.0)
    requires d2 != [] && d2[|d2| - 1] !in DayMarker && d1 != [] && d1[|d1| - 1] !in DayMarker
    ensures DayBuckets([e2, e1, gap]) == [DateCount(d2, e2.1), DateCount(d1, e1.1)]
  {
    DayKey(d2, e2.0);
    DayKey(d1, e1.0);
    BucketsOfThree(e2, e1, gap);
  }

  /** Two records listed with the later date first come out swapped. */
  lemma ExampleSort(b2: DateCount, b1: DateCount)
    requires LexLess(b1.date, b2.date)
    ensures SortByDate([b2, b1]) == [b1, b2]
  {
    assert [b2, b1][1..] == [b1] && [b1][1..] == [];
    assert SortByDate([b1]) == [b1];
    assert InsertByDate(b2, []) == [b2];
    assert InsertByDate(b2, [b1]) == [b1] + InsertByDate(b2, []);
  }

  /**
   * Two day buckets listed out of order and a metadata entry: the metadata
   * entry is dropped and the two days come out in ascending order.
   */
  lemma PhraseOverTimeExample()
    ensures var items := [("2020-01-02T00:00:00Z", Int(5)), ("2020-01-01T00:00:00Z", Int(3)), ("gap", Str("+1DAY"))];
      SortByDate(DayBuckets(items)) == [DateCount("2020-01-01", Int(3)), DateCount("2020-01-02", Int(5))]
  {
    assert !IsDayBucket("gap");
    ExampleBuckets(("2020-01-02T00:00:00Z", Int(5)), ("2020-01-01T00:00:00Z", Int(3)), ("gap", Str("+1DAY")),
                   "2020-01-02", "2020-01-01");
    var p := "2020-01-0";
    assert "2020-01-01" == p + "1" && "2020-01-02" == p + "2";
    LexLessAfterCommonPrefix(p, "1", "2");
    ExampleSort(DateCount("2020-01-02", Int(5)), DateCount("2020-01-01", Int(3)));
  }
}
