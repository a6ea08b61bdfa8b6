/** The result-collection loop of the web-search script: request pages of
    ten results at offsets 0, 10, 20, ... and append them, with missing fields
    defaulted, until `n` results are held.

    The source loops for as long as fewer than `n` results are held, so a
    provider that runs dry keeps it requesting forever. The model bounds the
    number of requests by `fuel`; with fuel to spare it behaves exactly like
    the source. */
module Pagination {
  import opened Wrappers

  /** Results per request (`"num": 10`) and the offset step. */
  const PageSize: nat := 10

  /** One organic result as the provider returns it; an absent key is `None`. */
  datatype RawItem = RawItem(position: Option<int>, title: Option<string>,
                             snippet: Option<string>, link: Option<string>)

  /** One collected row: the provider's position, the page it was fetched
      on, and the text fields with absent ones replaced by "". */
  datatype SearchResult = SearchResult(position: Option<int>, page: nat, title: string,
                                       snippet: string, link: string)

  /** The ranked-list provider: the organic results served at an offset
      (empty when the response has none). */
  type Provider = nat -> seq<RawItem>

  /** What a run did: the rows collected and the offsets requested, in order. */
  datatype Crawl = Crawl(results: seq<SearchResult>, offsets: seq<nat>)

  /** The page number shown for results fetched at offset `start`. */
  function PageOf(start: nat): nat {
    start / PageSize + 1
  }

  /** One collected row: a missing position stays missing, a missing text
      field becomes "", and the row carries the page it was fetched on. */
  function Normalize(item: RawItem, page: nat): (r: SearchResult)
    ensures r.position == item.position && r.page == page
    ensures item.title.Some? ==> r.title == item.title.value
    ensures item.title.None? ==> r.title == ""
    ensures item.snippet.Some? ==> r.snippet == item.snippet.value
    ensures item.snippet.None? ==> r.snippet == ""
    ensures item.link.Some? ==> r.link == item.link.value
    ensures item.link.None? ==> r.link == ""
  {
    SearchResult(item.position, page, item.title.GetOr(""), item.snippet.GetOr(""),
                 item.link.GetOr(""))
  }

  function NormalizeAll(items: seq<RawItem>, page: nat): (r: seq<SearchResult>)
    ensures |r| == |items|
    ensures forall i :: 0 <= i < |items| ==> r[i] == Normalize(items[i], page)
  {
    seq(|items|, i requires 0 <= i < |items| => Normalize(items[i], page))
  }

  /** The first `n` elements, or all of them when there are fewer. */
  function Take<T>(s: seq<T>, n: nat): (r: seq<T>)
    ensures |r| == if |s| <= n then |s| else n
    ensures r <= s
  {
    if |s| <= n then s else s[..n]
  }

  /** The reference meaning of `j` requests from offset `start`: their
      pages, normalised and concatenated in request order. */
  function PagesAt(provider: Provider, start: nat, j: nat): seq<SearchResult>
    decreases j
  {
    if j == 0 then []
    else NormalizeAll(provider(start), PageOf(start)) + PagesAt(provider, start + PageSize, j - 1)
  }

  /** The first `k` requests of a run, which starts at offset 0. */
  function Pages(provider: Provider, k: nat): seq<SearchResult> {
    PagesAt(provider, 0, k)
  }

  /** The loop from offset `start` with `acc` already collected: while fewer
      than `n` rows are held and fuel is left, request the page at `start`,
      append as many of its rows as still fit, and move on by one page. A
      request is made iff fewer than `n` rows are held and fuel is left, the
      first one at `start`; at most `fuel` are made; and the rows held are
      kept, in front, while the total never passes `n`. */
  function CollectFrom(provider: Provider, n: nat, start: nat, acc: seq<SearchResult>,
                       fuel: nat): (r: Crawl)
    ensures |r.offsets| <= fuel
    ensures |r.offsets| > 0 <==> |acc| < n && fuel > 0
    ensures |r.offsets| > 0 ==> r.offsets[0] == start
    ensures |acc| <= n ==> acc <= r.results && |r.results| <= n
    decreases fuel
  {
    if |acc| >= n || fuel == 0 then Crawl(acc, [])
    else
      var page := NormalizeAll(provider(start), PageOf(start));
      var next := CollectFrom(provider, n, start + PageSize, acc + Take(page, n - |acc|), fuel - 1);
      Crawl(next.results, [start] + next.offsets)
  }

  /** The whole collection run, starting at offset 0 with nothing held: it
      requests anything iff `n` and `fuel` are positive, first at offset 0,
      and holds at most `n` rows. */
  function Collect(provider: Provider, n: nat, fuel: nat): (r: Crawl)
    ensures |r.offsets| <= fuel && |r.results| <= n
    ensures |r.offsets| > 0 <==> n > 0 && fuel > 0
    ensures |r.offsets| > 0 ==> r.offsets[0] == 0
  {
    CollectFrom(provider, n, 0, [], fuel)
  }

  // ---------------------------------------------------------------------
  // Properties of the collection loop
  // ---------------------------------------------------------------------

  lemma TakeAppend<T>(a: seq<T>, b: seq<T>, n: nat)
    requires |a| < n
    ensures Take(a + b, n) == a + Take(b, n - |a|)
  {
    if |a + b| > n {
      assert (a + b)[..n] == a + b[..n - |a|];
    }
  }

  // One request, seen from the rows: `acc` held, `page` fetched, `rest` the
  // pages that follow. Appending only what fits changes nothing that the
  // first `n` rows or the row count compared with `n` can tell.

  lemma StepRows<T>(acc: seq<T>, page: seq<T>, rest: seq<T>, n: nat)
    requires |acc| < n
    ensures Take(acc + Take(page, n - |acc|) + rest, n) == Take(acc + (page + rest), n)
  {
    TakeAppend(acc, page + rest, n);
    var fit := Take(page, n - |acc|);
    TakeAppend(acc, fit + rest, n);
    assert acc + fit + rest == acc + (fit + rest);
    if |page| <= n - |acc| {
      assert fit == page;
    } else {
      assert Take(fit + rest, n - |acc|) == fit == Take(page + rest, n - |acc|);
    }
  }

  lemma StepShort<T>(acc: seq<T>, page: seq<T>, rest: seq<T>, n: nat)
    requires |acc| < n
    ensures |acc + Take(page, n - |acc|) + rest| < n ==> |acc + (page + rest)| < n
  {
  }

  lemma StepDone<T>(acc: seq<T>, page: seq<T>, rest: seq<T>, n: nat)
    requires |acc| < n
    ensures |acc + Take(page, n - |acc|) + rest| >= n ==> |acc + (page + rest)| >= n
  {
  }

  /** What a loop from offset `start` with `acc` held and `fuel` left may
      return as `r`, having made `m` requests: they were at the next `m`
      offsets; its rows are the first `n` rows of `acc` followed by those `m`
      pages; its last request was made while fewer than `n` rows were held;
      and it stopped because `n` rows were held or the fuel ran out. */
  ghost predicate Run(provider: Provider, n: nat, start: nat, acc: seq<SearchResult>,
                      fuel: nat, r: Crawl)
  {
    var m := |r.offsets|;
    && m <= fuel
    && (forall i :: 0 <= i < m ==> r.offsets[i] == start + PageSize * i)
    && r.results == Take(acc + PagesAt(provider, start, m), n)
    && (m == 0 || |acc + PagesAt(provider, start, m - 1)| < n)
    && (m == fuel || |acc + PagesAt(provider, start, m)| >= n)
  }

  /** One request, on the rows: a run from the next offset with the page's
      fitting rows appended is, with `start` put in front of its offsets, a
      run from `start`. */
  lemma RunStep(provider: Provider, n: nat, start: nat, acc: seq<SearchResult>, fuel: nat,
                next: Crawl)
    requires |acc| < n && fuel > 0
    requires Run(provider, n, start + PageSize,
                 acc + Take(NormalizeAll(provider(start), PageOf(start)), n - |acc|), fuel - 1, next)
    ensures Run(provider, n, start, acc, fuel, Crawl(next.results, [start] + next.offsets))
  {
    var page := NormalizeAll(provider(start), PageOf(start));
    var m := |next.offsets|;
    var r := Crawl(next.results, [start] + next.offsets);
    StepRows(acc, page, PagesAt(provider, start + PageSize, m), n);
    StepDone(acc, page, PagesAt(provider, start + PageSize, m), n);
    if m > 0 {
      StepShort(acc, page, PagesAt(provider, start + PageSize, m - 1), n);
    } else {
      assert acc + PagesAt(provider, start, m) == acc;
    }
    assert forall i :: 1 <= i < |r.offsets| ==> r.offsets[i] == next.offsets[i - 1];
  }

  /** Every loop that starts with at most `n` rows held is such a run. */
  lemma {:induction false} CollectFromSpec(provider: Provider, n: nat, start: nat,
                                           acc: seq<SearchResult>, fuel: nat)
    requires |acc| <= n
    ensures Run(provider, n, start, acc, fuel, CollectFrom(provider, n, start, acc, fuel))
    decreases fuel
  {
    if |acc| >= n || fuel == 0 {
      assert acc + PagesAt(provider, start, 0) == acc;
    } else {
      var held := acc + Take(NormalizeAll(provider(start), PageOf(start)), n - |acc|);
      CollectFromSpec(provider, n, start + PageSize, held, fuel - 1);
      RunStep(provider, n, start, acc, fuel, CollectFrom(provider, n, start + PageSize, held, fuel - 1));
    }
  }

  /** A run makes at most `fuel` requests, at offsets 0, 10, 20, ...; it
      requests again only while fewer than `n` rows are held and stops as
      soon as `n` are held; and its rows are the first `n` (or all) rows of
      the pages it requested, in order. */
  lemma CollectSpec(provider: Provider, n: nat, fuel: nat)
    ensures var c := Collect(provider, n, fuel);
            var m := |c.offsets|;
            && m <= fuel
            && (forall i :: 0 <= i < m ==> c.offsets[i] == PageSize * i)
            && c.results == Take(Pages(provider, m), n)
            && (forall j :: 0 <= j < m ==> |Pages(provider, j)| < n)
            && (m == fuel || |Pages(provider, m)| >= n)
  {
    CollectFromSpec(provider, n, 0, [], fuel);
    var m := |Collect(provider, n, fuel).offsets|;
    assert [] + Pages(provider, m) == Pages(provider, m);
    if m > 0 {
      assert [] + Pages(provider, m - 1) == Pages(provider, m - 1);
    }
    forall j | 0 <= j < m ensures |Pages(provider, j)| < n {
      PagesGrow(provider, 0, j, m - 1);
    }
  }

  /** Never more than `n` rows. */
  lemma CollectBound(provider: Provider, n: nat, fuel: nat)
    ensures |Collect(provider, n, fuel).results| <= n
  {
    CollectFromSpec(provider, n, 0, [], fuel);
  }

  /** Fewer requests give a prefix of the rows of more. */
  lemma {:induction false} PagesGrow(provider: Provider, start: nat, j: nat, k: nat)
    requires j <= k
    ensures PagesAt(provider, start, j) <= PagesAt(provider, start, k)
    decreases j
  {
    if j > 0 {
      PagesGrow(provider, start + PageSize, j - 1, k - 1);
    }
  }

  /** When the provider serves at least `n` rows within `fuel` pages, the
      run ends with exactly `n` rows: the first `n` of those pages. */
  lemma CollectExact(provider: Provider, n: nat, fuel: nat)
    requires |Pages(provider, fuel)| >= n
    ensures Collect(provider, n, fuel).results == Pages(provider, fuel)[..n]
  {
    CollectSpec(provider, n, fuel);
    var m := |Collect(provider, n, fuel).offsets|;
    PagesGrow(provider, 0, m, fuel);
  }

  lemma PageOfNext(start: nat)
    ensures PageOf(start + PageSize) == PageOf(start) + 1
  {
  }

  /** Rows from `k` requests starting at `start` carry the page numbers of
      those requests, in non-decreasing order. */
  lemma {:induction false} PagesAtOrdered(provider: Provider, start: nat, k: nat)
    ensures forall i :: 0 <= i < |PagesAt(provider, start, k)| ==>
              PageOf(start) <= PagesAt(provider, start, k)[i].page < PageOf(start) + k
    ensures forall i, j :: 0 <= i < j < |PagesAt(provider, start, k)| ==>
              PagesAt(provider, start, k)[i].page <= PagesAt(provider, start, k)[j].page
    decreases k
  {
    if k > 0 {
      PagesAtOrdered(provider, start + PageSize, k - 1);
      PageOfNext(start);
      var page := NormalizeAll(provider(start), PageOf(start));
      var rest := PagesAt(provider, start + PageSize, k - 1);
      var all := PagesAt(provider, start, k);
      assert all == page + rest;
      assert forall i :: |page| <= i < |all| ==> all[i] == rest[i - |page|];
    }
  }

  /** Rows from the `k` first requests carry page numbers 1 to `k`, in
      non-decreasing order. */
  lemma PagesOrdered(provider: Provider, k: nat)
    ensures forall i :: 0 <= i < |Pages(provider, k)| ==> 1 <= Pages(provider, k)[i].page <= k
    ensures forall i, j :: 0 <= i < j < |Pages(provider, k)| ==>
              Pages(provider, k)[i].page <= Pages(provider, k)[j].page
  {
    PagesAtOrdered(provider, 0, k);
  }

  /** Page numbers never decrease along the collected rows. */
  lemma CollectPagesOrdered(provider: Provider, n: nat, fuel: nat)
    ensures var rs := Collect(provider, n, fuel).results;
            forall i, j :: 0 <= i < j < |rs| ==> rs[i].page <= rs[j].page
  {
    CollectSpec(provider, n, fuel);
    PagesOrdered(provider, |Collect(provider, n, fuel).offsets|);
  }

  /** Two full pages and `n == 20`: exactly two requests, at offsets 0 and
      10; rows 0-9 are the first page's items marked page 1, rows 10-19 the
      second page's items marked page 2. */
  lemma TwoFullPages(provider: Provider, fuel: nat)
    requires |provider(0)| == 10 && |provider(10)| == 10 && fuel >= 2
    ensures Collect(provider, 20, fuel).offsets == [0, 10]
    ensures var rs := Collect(provider, 20, fuel).results;
            && |rs| == 20
            && (forall i :: 0 <= i < 10 ==> rs[i] == Normalize(provider(0)[i], 1))
            && (forall i :: 10 <= i < 20 ==> rs[i] == Normalize(provider(10)[i - 10], 2))
  {
    var p0 := NormalizeAll(provider(0), PageOf(0));
    var p1 := NormalizeAll(provider(10), PageOf(10));
    var none: seq<SearchResult> := [];
    var a1 := none + Take(p0, 20 - |none|);
    var a2 := a1 + Take(p1, 20 - |a1|);
    assert a1 == p0 && a2 == p0 + p1;
    var c1 := CollectFrom(provider, 20, 10, a1, fuel - 1);
    assert CollectFrom(provider, 20, 20, a2, fuel - 2) == Crawl(p0 + p1, []);
    assert c1 == Crawl(p0 + p1, [10]);
    assert Collect(provider, 20, fuel) == Crawl(c1.results, [0] + c1.offsets);
  }

  // ---------------------------------------------------------------------
  // The loop as the source writes it
  // ---------------------------------------------------------------------

  /** The source's inner loop over one page: append each item with the
      page's number, leaving as soon as `n` rows are held. */
  method AppendPage(before: seq<SearchResult>, organic: seq<RawItem>, start: nat, n: nat)
    returns (results: seq<SearchResult>)
    requires |before| < n
    ensures results == before + Take(NormalizeAll(organic, PageOf(start)), n - |before|)
  {
    results := before;
    var pageNumber := start / 10 + 1;
    var i := 0;
    while i < |organic|
      invariant 0 <= i <= |organic|
      invariant results == before + NormalizeAll(organic[..i], pageNumber)
      invariant |results| < n
    {
      var item := organic[i];
      results := results + [SearchResult(item.position, pageNumber, item.title.GetOr(""),
                                         item.snippet.GetOr(""), item.link.GetOr(""))];
      assert organic[..i + 1] == organic[..i] + [item];
      if |results| >= n {
        assert NormalizeAll(organic[..i + 1], pageNumber) == NormalizeAll(organic, pageNumber)[..i + 1];
        return;
      }
      i := i + 1;
    }
    assert organic[..i] == organic;
  }

  /** What holds at the head of the source's outer loop, with `rows` held
      and `offsets` requested so far, the next request due at `start`: the
      offsets so far are 0, 10, 20, ..., at most `n` rows are held, and
      finishing the run from here gives the whole run. */
  ghost predicate LoopHead(provider: Provider, n: nat, fuel: nat, rows: seq<SearchResult>,
                           offsets: seq<nat>, start: nat)
  {
    && OffsetsSoFar(offsets, start) && |offsets| <= fuel
    && |rows| <= n
    && RestOfRun(provider, n, fuel, rows, offsets, start)
  }

  /** The offsets requested are 0, 10, 20, ... and `start` is the next. */
  predicate OffsetsSoFar(offsets: seq<nat>, start: nat) {
    && start == PageSize * |offsets|
    && (forall i :: 0 <= i < |offsets| ==> offsets[i] == PageSize * i)
  }

  ghost predicate RestOfRun(provider: Provider, n: nat, fuel: nat, rows: seq<SearchResult>,
                            offsets: seq<nat>, start: nat)
    requires |offsets| <= fuel
  {
    var rest := CollectFrom(provider, n, start, rows, fuel - |offsets|);
    Collect(provider, n, fuel) == Crawl(rest.results, offsets + rest.offsets)
  }

  lemma OffsetsTurn(offsets: seq<nat>, start: nat)
    requires OffsetsSoFar(offsets, start)
    ensures OffsetsSoFar(offsets + [start], start + PageSize)
  {
  }

  lemma RestTurn(provider: Provider, n: nat, fuel: nat, rows: seq<SearchResult>,
                 offsets: seq<nat>, start: nat, next: seq<SearchResult>)
    requires |offsets| < fuel && |rows| < n
    requires RestOfRun(provider, n, fuel, rows, offsets, start)
    requires next == rows + Take(NormalizeAll(provider(start), PageOf(start)), n - |rows|)
    ensures RestOfRun(provider, n, fuel, next, offsets + [start], start + PageSize)
  {
    var left := fuel - |offsets|;
    assert fuel - |offsets + [start]| == left - 1;
    var rest' := CollectFrom(provider, n, start + PageSize, next, left - 1);
    assert CollectFrom(provider, n, start, rows, left) == Crawl(rest'.results, [start] + rest'.offsets);
    assert (offsets + [start]) + rest'.offsets == offsets + ([start] + rest'.offsets);
  }

  /** One turn of the outer loop keeps its head condition. */
  lemma LoopTurn(provider: Provider, n: nat, fuel: nat, rows: seq<SearchResult>,
                 offsets: seq<nat>, start: nat, next: seq<SearchResult>)
    requires LoopHead(provider, n, fuel, rows, offsets, start)
    requires |rows| < n && |offsets| < fuel
    requires next == rows + Take(NormalizeAll(provider(start), PageOf(start)), n - |rows|)
    ensures LoopHead(provider, n, fuel, next, offsets + [start], start + PageSize)
  {
    OffsetsTurn(offsets, start);
    RestTurn(provider, n, fuel, rows, offsets, start, next);
  }

  /** When the outer loop ends, what it holds is the whole run. */
  lemma LoopEnd(provider: Provider, n: nat, fuel: nat, rows: seq<SearchResult>,
                offsets: seq<nat>, start: nat)
    requires LoopHead(provider, n, fuel, rows, offsets, start)
    requires |rows| >= n || |offsets| >= fuel
    ensures Crawl(rows, offsets) == Collect(provider, n, fuel)
  {
    assert CollectFrom(provider, n, start, rows, fuel - |offsets|) == Crawl(rows, []);
    assert offsets + [] == offsets;
  }

  /** The source's outer loop: request at `start`, append the page, advance
      `start` by ten, while fewer than `n` rows are held. It computes exactly
      `Collect`. */
  method Paginate(provider: Provider, n: nat, fuel: nat) returns (results: seq<SearchResult>, offsets: seq<nat>)
    ensures Crawl(results, offsets) == Collect(provider, n, fuel)
    ensures |results| <= n
    ensures forall i :: 0 <= i < |offsets| ==> offsets[i] == PageSize * i
  {
    results := [];
    offsets := [];
    var start: nat := 0;
    while |results| < n && |offsets| < fuel
      invariant LoopHead(provider, n, fuel, results, offsets, start)
      decreases fuel - |offsets|
    {
      var next := AppendPage(results, provider(start), start, n);
      LoopTurn(provider, n, fuel, results, offsets, start, next);
      offsets := offsets + [start];
      results := next;
      start := start + 10;
    }
    LoopEnd(provider, n, fuel, results, offsets, start);
  }
}
