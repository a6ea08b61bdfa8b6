/** The video-engagement variant: one query per base brand, one statistics
    record per returned video with its engagement rate, all records
    concatenated in query order, and the mean rate per query. */
module Engagement {
  import opened Wrappers
  import opened Text
  import opened Grouping

  /** `base_brands`, in order. */
  const BaseBrands: seq<string> := ["Atomberg", "Crompton", "Bajaj", "Orient"]

  /** One hit of the video search; the id object may lack a `videoId`. */
  datatype SearchHit = SearchHit(videoId: Option<string>)

  /** A video's `statistics` object; the counts are already numbers. */
  datatype Statistics = Statistics(viewCount: Option<nat>, likeCount: Option<nat>,
                                   commentCount: Option<nat>)

  /** A video's `snippet` object. */
  datatype Snippet = Snippet(title: Option<string>)

  /** One item of the video-details response; either object may be absent. */
  datatype Video = Video(snippet: Option<Snippet>, statistics: Option<Statistics>)

  /** One row of the per-video table. */
  datatype StatsRecord = StatsRecord(brandQuery: string, videoTitle: string, views: nat,
                                     likes: nat, comments: nat, engagementRate: real)

  /** A Python `KeyError` naming the missing key. */
  datatype KeyError = KeyError(key: string)

  /** One line of the per-query summary. */
  datatype QueryAverage = QueryAverage(brandQuery: string, average: real)

  // ---------------------------------------------------------------------
  // Queries
  // ---------------------------------------------------------------------

  /** `BRANDS`: each base brand followed by a space and the keyword. Each
      query splits back into its base brand and the keyword. */
  function BrandQueries(bases: seq<string>, keyword: string): (r: seq<string>)
    ensures |r| == |bases|
    ensures forall i :: 0 <= i < |bases| ==>
              && |r[i]| == |bases[i]| + 1 + |keyword|
              && r[i][..|bases[i]|] == bases[i]
              && r[i][|bases[i]|] == ' '
              && r[i][|bases[i]| + 1..] == keyword
  {
    if |bases| == 0 then []
    else
      var q := bases[0] + " " + keyword;
      assert q[..|bases[0]|] == bases[0] && q[|bases[0]| + 1..] == keyword;
      [q] + BrandQueries(bases[1..], keyword)
  }

  // ---------------------------------------------------------------------
  // Per-video records
  // ---------------------------------------------------------------------

  /** `search_videos`: the ids of the hits that carry one, in hit order. */
  function SearchVideos(hits: seq<SearchHit>): (ids: seq<string>)
    ensures |ids| <= |hits|
    ensures forall id :: id in ids <==> exists i :: 0 <= i < |hits| && hits[i].videoId == Some(id)
  {
    if |hits| == 0 then []
    else
      var rest := SearchVideos(hits[1..]);
      assert forall id :: (exists i :: 0 <= i < |hits| && hits[i].videoId == Some(id)) <==>
                          hits[0].videoId == Some(id)
                          || exists i :: 0 <= i < |hits[1..]| && hits[1..][i].videoId == Some(id) by {
        forall id | exists i :: 0 <= i < |hits| && hits[i].videoId == Some(id)
          ensures hits[0].videoId == Some(id)
                  || exists i :: 0 <= i < |hits[1..]| && hits[1..][i].videoId == Some(id)
        {
          var i :| 0 <= i < |hits| && hits[i].videoId == Some(id);
          if i > 0 {
            assert hits[1..][i - 1].videoId == Some(id);
          }
        }
      }
      (if hits[0].videoId.Some? then [hits[0].videoId.value] else []) + rest
  }

  /** One hit gives its id, or nothing when it has none. */
  lemma SearchVideosOne(h: SearchHit)
    ensures SearchVideos([h]) == if h.videoId.Some? then [h.videoId.value] else []
  {
    assert [h][1..] == [];
  }

  /** The ids of consecutive hit lists are the ids of each, in order, so
      hit order and repeated ids are kept. */
  lemma {:induction false} SearchVideosAppend(a: seq<SearchHit>, b: seq<SearchHit>)
    ensures SearchVideos(a + b) == SearchVideos(a) + SearchVideos(b)
    decreases |a|
  {
    if |a| == 0 {
      assert a + b == b;
    } else {
      assert (a + b)[1..] == a[1..] + b;
      SearchVideosAppend(a[1..], b);
    }
  }

  /** `(likes + comments) / views * 100`, or 0 when there are no views,
      computed exactly. */
  function EngagementRate(views: nat, likes: nat, comments: nat): (r: real)
    ensures views == 0 ==> r == 0.0
    ensures views > 0 ==> r * (views as real) == ((likes + comments) as real) * 100.0
    ensures r >= 0.0
    ensures likes + comments <= views ==> r <= 100.0
  {
    if views == 0 then 0.0
    else
      var rate := ((likes + comments) as real / views as real) * 100.0;
      assert likes + comments <= views ==> (likes + comments) as real / views as real <= 1.0;
      rate
  }

  /** The record for one video: counts default to 0, the title to "". The
      `snippet` and `statistics` lookups raise when the object is absent,
      `snippet` first. */
  function VideoRecord(v: Video, brandName: string): (r: Result<StatsRecord, KeyError>)
    ensures r.Failure? <==> v.snippet.None? || v.statistics.None?
    ensures r.Failure? ==> r.error == KeyError(if v.snippet.None? then "snippet" else "statistics")
    ensures r.Success? ==>
              && r.value.brandQuery == brandName
              && r.value.videoTitle == v.snippet.value.title.GetOr("")
              && r.value.views == v.statistics.value.viewCount.GetOr(0)
              && r.value.likes == v.statistics.value.likeCount.GetOr(0)
              && r.value.comments == v.statistics.value.commentCount.GetOr(0)
              && r.value.engagementRate == EngagementRate(r.value.views, r.value.likes, r.value.comments)
  {
    match (v.snippet, v.statistics)
    case (None, _) => Failure(KeyError("snippet"))
    case (_, None) => Failure(KeyError("statistics"))
    case (Some(sn), Some(st)) =>
      var views := st.viewCount.GetOr(0);
      var likes := st.likeCount.GetOr(0);
      var comments := st.commentCount.GetOr(0);
      Success(StatsRecord(brandName, sn.title.GetOr(""), views, likes, comments,
                          EngagementRate(views, likes, comments)))
  }

  /** `get_video_stats`: one record per returned video, in response order,
      each tagged with the query; the first video lacking an object aborts
      with that object's `KeyError`. */
  function GetVideoStats(videos: seq<Video>, brandName: string): (r: Result<seq<StatsRecord>, KeyError>)
    ensures r.Success? <==> forall i :: 0 <= i < |videos| ==> VideoRecord(videos[i], brandName).Success?
    ensures r.Success? ==>
              && |r.value| == |videos|
              && forall i :: 0 <= i < |videos| ==>
                   r.value[i] == VideoRecord(videos[i], brandName).value
                   && r.value[i].brandQuery == brandName
    ensures r.Failure? ==>
              exists i :: 0 <= i < |videos| && VideoRecord(videos[i], brandName) == Failure(r.error)
                          && forall j :: 0 <= j < i ==> VideoRecord(videos[j], brandName).Success?
  {
    if |videos| == 0 then Success([])
    else
      match VideoRecord(videos[0], brandName)
      case Failure(e) => Failure(e)
      case Success(rec) =>
        var rest := GetVideoStats(videos[1..], brandName);
        assert forall i :: 1 <= i < |videos| ==> videos[i] == videos[1..][i - 1];
        match rest
        case Failure(e) => Failure(e)
        case Success(recs) => Success([rec] + recs)
  }

  // ---------------------------------------------------------------------
  // The main loop
  // ---------------------------------------------------------------------

  /** The video search provider: the hits for a query. */
  type SearchProvider = string -> seq<SearchHit>

  /** The video-details provider: the items returned for a list of ids. */
  type DetailsProvider = seq<string> -> seq<Video>

  /** The details returned for a query's search hits. */
  function VideosFor(q: string, search: SearchProvider, lookup: DetailsProvider): seq<Video> {
    lookup(SearchVideos(search(q)))
  }

  /** The reference meaning of `all_results`: the lists, concatenated in
      order. */
  function Flatten(lists: seq<seq<StatsRecord>>): seq<StatsRecord> {
    if |lists| == 0 then [] else lists[0] + Flatten(lists[1..])
  }

  /** A query's records, when they were built. */
  predicate QueryOk(q: string, search: SearchProvider, lookup: DetailsProvider) {
    GetVideoStats(VideosFor(q, search, lookup), q).Success?
  }

  function QueryStats(q: string, search: SearchProvider, lookup: DetailsProvider): seq<StatsRecord>
    requires QueryOk(q, search, lookup)
  {
    GetVideoStats(VideosFor(q, search, lookup), q).value
  }

  /** The records of each query, in query order. */
  function PerQuery(queries: seq<string>, search: SearchProvider, lookup: DetailsProvider)
    : (r: seq<seq<StatsRecord>>)
    requires forall i :: 0 <= i < |queries| ==> QueryOk(queries[i], search, lookup)
    ensures |r| == |queries|
    ensures forall i :: 0 <= i < |queries| ==> r[i] == QueryStats(queries[i], search, lookup)
  {
    seq(|queries|, i requires 0 <= i < |queries| => QueryStats(queries[i], search, lookup))
  }

  /** The main loop: for each query in order, search, fetch the details,
      build the records and extend `all_results`. It succeeds exactly when
      every query's records could be built, and then holds the per-query
      lists concatenated in query order, every record tagged with one of
      the queries. */
  function CollectAll(queries: seq<string>, search: SearchProvider, lookup: DetailsProvider)
    : (r: Result<seq<StatsRecord>, KeyError>)
    ensures r.Success? <==> forall i :: 0 <= i < |queries| ==> QueryOk(queries[i], search, lookup)
    ensures r.Success? ==> r.value == Flatten(PerQuery(queries, search, lookup))
    ensures r.Success? ==> forall k :: 0 <= k < |r.value| ==> r.value[k].brandQuery in queries
    ensures r.Failure? ==> FailsFirstAt(queries, search, lookup, r.error)
  {
    if |queries| == 0 then Success([])
    else
      var q := queries[0];
      QueriesTail(queries, search, lookup);
      match GetVideoStats(VideosFor(q, search, lookup), q)
      case Failure(e) =>
        assert QueryFails(queries, search, lookup, 0, e);
        Failure(e)
      case Success(stats) =>
        match CollectAll(queries[1..], search, lookup)
        case Failure(e) =>
          FailsFirstCons(queries, search, lookup, e);
          Failure(e)
        case Success(rest) =>
          TaggedConcat(stats, rest, queries);
          Success(stats + rest)
  }

  /** Query `i` is the first whose records could not be built, and it
      failed with `e`. */
  predicate QueryFails(queries: seq<string>, search: SearchProvider, lookup: DetailsProvider,
                       i: nat, e: KeyError) {
    && i < |queries|
    && GetVideoStats(VideosFor(queries[i], search, lookup), queries[i]) == Failure(e)
    && forall j :: 0 <= j < i ==> QueryOk(queries[j], search, lookup)
  }

  /** The run stopped at the first failing query, with that query's error. */
  ghost predicate FailsFirstAt(queries: seq<string>, search: SearchProvider, lookup: DetailsProvider,
                               e: KeyError) {
    exists i: nat :: QueryFails(queries, search, lookup, i, e)
  }

  lemma FailsFirstCons(queries: seq<string>, search: SearchProvider, lookup: DetailsProvider, e: KeyError)
    requires |queries| > 0 && QueryOk(queries[0], search, lookup)
    requires FailsFirstAt(queries[1..], search, lookup, e)
    ensures FailsFirstAt(queries, search, lookup, e)
  {
    var i: nat :| QueryFails(queries[1..], search, lookup, i, e);
    assert forall j :: 1 <= j <= i + 1 ==> queries[j] == queries[1..][j - 1];
    assert QueryFails(queries, search, lookup, i + 1, e);
  }

  /** Running the loop over two query lists one after the other is running
      it over their concatenation. */
  lemma CollectAllAppend(a: seq<string>, b: seq<string>, search: SearchProvider, lookup: DetailsProvider)
    ensures CollectAll(a + b, search, lookup).Success?
            <==> CollectAll(a, search, lookup).Success? && CollectAll(b, search, lookup).Success?
    ensures CollectAll(a + b, search, lookup).Success? ==>
              CollectAll(a + b, search, lookup).value
              == CollectAll(a, search, lookup).value + CollectAll(b, search, lookup).value
  {
    AllOkAppend(a, b, search, lookup);
    if CollectAll(a + b, search, lookup).Success? {
      CollectAllAppendValue(a, b, search, lookup);
    }
  }

  lemma AllOkAppend(a: seq<string>, b: seq<string>, search: SearchProvider, lookup: DetailsProvider)
    ensures (forall i :: 0 <= i < |a + b| ==> QueryOk((a + b)[i], search, lookup))
            <==> (forall i :: 0 <= i < |a| ==> QueryOk(a[i], search, lookup))
                 && (forall i :: 0 <= i < |b| ==> QueryOk(b[i], search, lookup))
  {
    assert forall i :: 0 <= i < |a| ==> (a + b)[i] == a[i];
    assert forall i :: 0 <= i < |b| ==> (a + b)[|a| + i] == b[i];
  }

  lemma CollectAllAppendValue(a: seq<string>, b: seq<string>, search: SearchProvider, lookup: DetailsProvider)
    requires CollectAll(a + b, search, lookup).Success?
    requires CollectAll(a, search, lookup).Success? && CollectAll(b, search, lookup).Success?
    ensures CollectAll(a + b, search, lookup).value
            == CollectAll(a, search, lookup).value + CollectAll(b, search, lookup).value
  {
    var pa, pb := PerQuery(a, search, lookup), PerQuery(b, search, lookup);
    var pab := PerQuery(a + b, search, lookup);
    assert forall i :: 0 <= i < |a| ==> (a + b)[i] == a[i];
    assert forall i :: 0 <= i < |b| ==> (a + b)[|a| + i] == b[i];
    assert pab == pa + pb;
    FlattenAppend(pa, pb);
  }

  /** Concatenating lists of lists and then flattening is flattening each. */
  lemma {:induction false} FlattenAppend(x: seq<seq<StatsRecord>>, y: seq<seq<StatsRecord>>)
    ensures Flatten(x + y) == Flatten(x) + Flatten(y)
    decreases |x|
  {
    if |x| == 0 {
      assert x + y == y;
    } else {
      assert (x + y)[0] == x[0] && (x + y)[1..] == x[1..] + y;
      FlattenAppend(x[1..], y);
    }
  }

  lemma QueriesTail(queries: seq<string>, search: SearchProvider, lookup: DetailsProvider)
    requires |queries| > 0
    ensures (forall i :: 0 <= i < |queries| ==> QueryOk(queries[i], search, lookup))
            <==> QueryOk(queries[0], search, lookup)
                 && forall i :: 0 <= i < |queries[1..]| ==> QueryOk(queries[1..][i], search, lookup)
    ensures (forall i :: 0 <= i < |queries| ==> QueryOk(queries[i], search, lookup)) ==>
              PerQuery(queries, search, lookup)[1..] == PerQuery(queries[1..], search, lookup)
  {
    assert forall i :: 1 <= i < |queries| ==> queries[i] == queries[1..][i - 1];
  }

  /** The records of a concatenation carry the tags of its two parts. */
  lemma TaggedConcat(stats: seq<StatsRecord>, rest: seq<StatsRecord>, queries: seq<string>)
    requires |queries| > 0
    requires forall k :: 0 <= k < |stats| ==> stats[k].brandQuery == queries[0]
    requires forall k :: 0 <= k < |rest| ==> rest[k].brandQuery in queries[1..]
    ensures forall k :: 0 <= k < |stats + rest| ==> (stats + rest)[k].brandQuery in queries
  {
    var all := stats + rest;
    forall k | 0 <= k < |all| ensures all[k].brandQuery in queries {
      if k < |stats| {
        assert all[k] == stats[k];
      } else {
        assert all[k] == rest[k - |stats|];
        assert forall x :: x in queries[1..] ==> x in queries;
      }
    }
  }

  // ---------------------------------------------------------------------
  // Per-query mean
  // ---------------------------------------------------------------------

  /** The rates of the records for query `q`, in record order. */
  function RatesFor(records: seq<StatsRecord>, q: string): seq<real> {
    if |records| == 0 then []
    else RatesFor(records[..|records| - 1], q)
         + (if records[|records| - 1].brandQuery == q then [records[|records| - 1].engagementRate] else [])
  }

  function SumR(xs: seq<real>): real {
    if |xs| == 0 then 0.0 else SumR(xs[..|xs| - 1]) + xs[|xs| - 1]
  }

  function MinR(xs: seq<real>): real
    requires |xs| > 0
  {
    if |xs| == 1 then xs[0]
    else var m := MinR(xs[..|xs| - 1]); if xs[|xs| - 1] < m then xs[|xs| - 1] else m
  }

  function MaxR(xs: seq<real>): real
    requires |xs| > 0
  {
    if |xs| == 1 then xs[0]
    else var m := MaxR(xs[..|xs| - 1]); if xs[|xs| - 1] > m then xs[|xs| - 1] else m
  }

  /** The `(brand_query, rate)` column pairs. */
  function RatePairs(records: seq<StatsRecord>): (r: seq<(string, real)>)
    ensures |r| == |records|
    ensures forall i :: 0 <= i < |records| ==> r[i] == (records[i].brandQuery, records[i].engagementRate)
  {
    seq(|records|, i requires 0 <= i < |records| => (records[i].brandQuery, records[i].engagementRate))
  }

  /** `.mean()` per group. */
  function Means(bs: seq<Bucket<string, real>>): (r: seq<QueryAverage>)
    requires forall i :: 0 <= i < |bs| ==> |bs[i].values| > 0
    ensures |r| == |bs|
    ensures forall i :: 0 <= i < |bs| ==>
              r[i] == QueryAverage(bs[i].key, SumR(bs[i].values) / (|bs[i].values| as real))
  {
    if |bs| == 0 then []
    else [QueryAverage(bs[0].key, SumR(bs[0].values) / (|bs[0].values| as real))] + Means(bs[1..])
  }

  /** Some record was produced for query `q`. */
  predicate Produced(records: seq<StatsRecord>, q: string) {
    exists j :: 0 <= j < |records| && records[j].brandQuery == q
  }

  /** No query has two lines. */
  predicate DistinctQueries(avgs: seq<QueryAverage>) {
    forall i, j :: 0 <= i < j < |avgs| ==> avgs[i].brandQuery != avgs[j].brandQuery
  }

  /** A query has a line exactly when it produced records. */
  ghost predicate CoversProduced(records: seq<StatsRecord>, avgs: seq<QueryAverage>) {
    forall q :: Listed(avgs, q) <==> Produced(records, q)
  }

  /** Some line is about query `q`. */
  predicate Listed(avgs: seq<QueryAverage>, q: string) {
    exists i :: 0 <= i < |avgs| && avgs[i].brandQuery == q
  }

  /** The line's average is its query's rate total over its record count,
      hence between the least and the greatest of those rates. */
  predicate IsMeanLine(records: seq<StatsRecord>, a: QueryAverage) {
    IsMeanOf(a.average, RatesFor(records, a.brandQuery))
  }

  /** `m` is the mean of the non-empty `rates`. */
  predicate IsMeanOf(m: real, rates: seq<real>) {
    && |rates| > 0
    && m * (|rates| as real) == SumR(rates)
    && MinR(rates) <= m <= MaxR(rates)
  }

  /** `df.groupby("brand_query")["engagement_rate_%"].mean()`. An empty
      `all_results` gives a frame without columns, and the lookup of the
      `brand_query` column raises; otherwise there is one mean line per
      query that produced records and no other. */
  function AverageByQuery(records: seq<StatsRecord>): (r: Result<seq<QueryAverage>, KeyError>)
    ensures r.Failure? <==> |records| == 0
    ensures r.Success? ==>
              && DistinctQueries(r.value)
              && CoversProduced(records, r.value)
              && (forall i :: 0 <= i < |r.value| ==> IsMeanLine(records, r.value[i]))
  {
    if |records| == 0 then Failure(KeyError("brand_query"))
    else
      AveragesSpec(records);
      Success(Means(GroupBy(RatePairs(records))))
  }

  lemma AveragesSpec(records: seq<StatsRecord>)
    ensures var avgs := Means(GroupBy(RatePairs(records)));
            && DistinctQueries(avgs)
            && CoversProduced(records, avgs)
            && (forall i :: 0 <= i < |avgs| ==> IsMeanLine(records, avgs[i]))
  {
    var groups := GroupBy(RatePairs(records));
    var avgs := Means(groups);
    assert DistinctQueries(avgs) by {
      assert forall i :: 0 <= i < |avgs| ==> avgs[i].brandQuery == groups[i].key;
    }
    forall q ensures Listed(avgs, q) <==> Produced(records, q) {
      RatePairsKeys(records, q);
      MeansKeys(groups, q);
    }
    forall i | 0 <= i < |avgs|
      ensures IsMeanLine(records, avgs[i])
    {
      MeanLine(records, groups, i);
    }
  }

  lemma MeansKeys(groups: seq<Bucket<string, real>>, q: string)
    requires forall i :: 0 <= i < |groups| ==> |groups[i].values| > 0
    ensures Listed(Means(groups), q) <==> InBuckets(groups, q)
  {
    var avgs := Means(groups);
    assert forall i :: 0 <= i < |avgs| ==> avgs[i].brandQuery == groups[i].key;
    if InBuckets(groups, q) {
      var i :| 0 <= i < |groups| && groups[i].key == q;
      assert avgs[i].brandQuery == q;
    } else {
      forall i | 0 <= i < |avgs| ensures avgs[i].brandQuery != q {
        assert groups[i].key != q;
      }
    }
  }

  lemma MeanLine(records: seq<StatsRecord>, groups: seq<Bucket<string, real>>, i: nat)
    requires IsGrouping(groups, RatePairs(records))
    requires i < |groups|
    ensures IsMeanLine(records, Means(groups)[i])
  {
    var q := groups[i].key;
    var vs := groups[i].values;
    assert vs == ValuesFor(RatePairs(records), q);
    RatePairsValues(records, q);
    assert Means(groups)[i] == QueryAverage(q, SumR(vs) / (|vs| as real));
    MeanLineOf(records, q, vs);
  }

  lemma MeanLineOf(records: seq<StatsRecord>, q: string, vs: seq<real>)
    requires vs == RatesFor(records, q) && |vs| > 0
    ensures IsMeanLine(records, QueryAverage(q, SumR(vs) / (|vs| as real)))
  {
    MeanBounds(vs);
    assert IsMeanOf(SumR(vs) / (|vs| as real), vs);
  }

  lemma {:induction false} RatePairsValues(records: seq<StatsRecord>, q: string)
    ensures ValuesFor(RatePairs(records), q) == RatesFor(records, q)
    decreases |records|
  {
    if |records| > 0 {
      var init := records[..|records| - 1];
      assert RatePairs(records)[..|records| - 1] == RatePairs(init);
      RatePairsValues(init, q);
    }
  }

  lemma RatePairsKeys(records: seq<StatsRecord>, q: string)
    ensures HasKey(RatePairs(records), q) <==> Produced(records, q)
  {
    var p := RatePairs(records);
    if Produced(records, q) {
      var j :| 0 <= j < |records| && records[j].brandQuery == q;
      assert p[j].0 == q;
    }
  }

  /** The mean of a non-empty list lies between its least and its greatest
      element. */
  lemma MeanBounds(xs: seq<real>)
    requires |xs| > 0
    ensures IsMeanOf(SumR(xs) / (|xs| as real), xs)
  {
    var n := |xs| as real;
    MinBelow(xs);
    MaxAbove(xs);
    SumAtLeast(xs, MinR(xs));
    SumAtMost(xs, MaxR(xs));
    DivideBounds(MinR(xs), SumR(xs), MaxR(xs), n);
  }

  /** Dividing `lo * n <= s <= hi * n` by a positive `n`. */
  lemma DivideBounds(lo: real, s: real, hi: real, n: real)
    requires n > 0.0
    requires n * lo <= s <= n * hi
    ensures lo <= s / n <= hi
    ensures (s / n) * n == s
  {
    var m := s / n;
    assert m * n == s;
    CancelFactor(lo, m, n);
    CancelFactor(m, hi, n);
  }

  /** A positive factor can be cancelled from both sides of `<=`. */
  lemma CancelFactor(a: real, b: real, n: real)
    requires n > 0.0 && a * n <= b * n
    ensures a <= b
  {
    assert (b - a) * n == b * n - a * n;
  }

  lemma {:induction false} MinBelow(xs: seq<real>)
    requires |xs| > 0
    ensures forall k :: 0 <= k < |xs| ==> MinR(xs) <= xs[k]
    decreases |xs|
  {
    if |xs| > 1 {
      MinBelow(xs[..|xs| - 1]);
    }
  }

  lemma {:induction false} MaxAbove(xs: seq<real>)
    requires |xs| > 0
    ensures forall k :: 0 <= k < |xs| ==> xs[k] <= MaxR(xs)
    decreases |xs|
  {
    if |xs| > 1 {
      MaxAbove(xs[..|xs| - 1]);
    }
  }

  lemma {:induction false} SumAtLeast(xs: seq<real>, m: real)
    requires forall k :: 0 <= k < |xs| ==> m <= xs[k]
    ensures SumR(xs) >= (|xs| as real) * m
    decreases |xs|
  {
    if |xs| > 0 {
      SumAtLeast(xs[..|xs| - 1], m);
    }
  }

  lemma {:induction false} SumAtMost(xs: seq<real>, m: real)
    requires forall k :: 0 <= k < |xs| ==> xs[k] <= m
    ensures SumR(xs) <= (|xs| as real) * m
    decreases |xs|
  {
    if |xs| > 0 {
      SumAtMost(xs[..|xs| - 1], m);
    }
  }
}
