/** The visibility table: every row is given a brand and a position weight;
    rows without a brand are dropped, the weights are summed per brand and
    the brands are ranked by total, largest first. */
module Visibility {
  import opened Wrappers
  import opened Url
  import opened Pagination
  import opened Brands
  import opened Scoring
  import opened Grouping

  /** A row once classified: its brand (if any) and its position weight. */
  datatype Classified = Classified(brand: Option<string>, score: nat)

  /** One line of the final table. */
  datatype BrandScore = BrandScore(brand: string, total: int)

  /** The `brand` and `score` columns: `detect_brand` and
      `get_position_score` applied to every row. A row whose link `urlparse`
      rejects aborts the whole table. */
  function Classify(rows: seq<SearchResult>): (r: Result<seq<Classified>, UrlError>)
    ensures r.Success? <==> forall i :: 0 <= i < |rows| ==> DetectBrand(rows[i]).Success?
    ensures r.Success? ==>
              && |r.value| == |rows|
              && forall i :: 0 <= i < |rows| ==>
                   r.value[i] == Classified(DetectBrand(rows[i]).value, PositionScore(rows[i].position))
  {
    if forall i :: 0 <= i < |rows| ==> DetectBrand(rows[i]).Success? then
      Success(seq(|rows|, i requires 0 <= i < |rows| =>
                            Classified(DetectBrand(rows[i]).value, PositionScore(rows[i].position))))
    else
      Failure(InvalidIPv6Url)
  }

  // ---------------------------------------------------------------------
  // Reference meaning of a brand's total
  // ---------------------------------------------------------------------

  /** The sum of the weights of the rows classified as `b`. */
  function BrandTotal(items: seq<Classified>, b: string): int {
    if |items| == 0 then 0
    else BrandTotal(items[..|items| - 1], b)
         + (if items[|items| - 1].brand == Some(b) then items[|items| - 1].score else 0)
  }

  /** The sum of the weights of all rows that have a brand. */
  function MatchedTotal(items: seq<Classified>): int {
    if |items| == 0 then 0
    else MatchedTotal(items[..|items| - 1])
         + (if items[|items| - 1].brand.Some? then items[|items| - 1].score else 0)
  }

  /** Some row is classified as `b`. */
  predicate Mentions(items: seq<Classified>, b: string) {
    exists j :: 0 <= j < |items| && items[j].brand == Some(b)
  }

  // ---------------------------------------------------------------------
  // The reduction
  // ---------------------------------------------------------------------

  /** `dropna(subset=["brand"])`: the (brand, weight) pairs of the rows that
      have a brand, in row order. */
  function Matched(items: seq<Classified>): seq<(string, int)> {
    if |items| == 0 then [] else Matched(items[..|items| - 1]) + RowPair(items[|items| - 1])
  }

  /** What one row adds to the matched pairs: its (brand, weight) pair, or
      nothing when it has no brand. */
  function RowPair(c: Classified): seq<(string, int)> {
    if c.brand.Some? then [(c.brand.value, c.score as int)] else []
  }

  function Sum(xs: seq<int>): int {
    if |xs| == 0 then 0 else Sum(xs[..|xs| - 1]) + xs[|xs| - 1]
  }

  /** `.sum()` per group. */
  function Totals(bs: seq<Bucket<string, int>>): (r: seq<BrandScore>)
    ensures |r| == |bs|
    ensures forall i :: 0 <= i < |bs| ==> r[i] == BrandScore(bs[i].key, Sum(bs[i].values))
  {
    if |bs| == 0 then [] else [BrandScore(bs[0].key, Sum(bs[0].values))] + Totals(bs[1..])
  }

  /** The totals in table order, summed. */
  function GrandTotal(s: seq<BrandScore>): int {
    if |s| == 0 then 0 else s[0].total + GrandTotal(s[1..])
  }

  /** Some line is for brand `b`. */
  predicate Lists(s: seq<BrandScore>, b: string) {
    exists i :: 0 <= i < |s| && s[i].brand == b
  }

  predicate DistinctBrands(s: seq<BrandScore>) {
    forall i, j :: 0 <= i < j < |s| ==> s[i].brand != s[j].brand
  }

  /** Largest total first. */
  predicate NonIncreasing(s: seq<BrandScore>) {
    forall i, j :: 0 <= i < j < |s| ==> s[i].total >= s[j].total
  }

  /** Puts `x` into a ranked table, ahead of every line whose total it
      reaches. */
  function Insert(x: BrandScore, s: seq<BrandScore>): (r: seq<BrandScore>)
    requires NonIncreasing(s)
    ensures NonIncreasing(r)
    ensures multiset(r) == multiset(s) + multiset{x}
  {
    if |s| == 0 then [x]
    else if x.total >= s[0].total then
      PrependRanked(x, s);
      [x] + s
    else
      var rest := Insert(x, s[1..]);
      assert s == [s[0]] + s[1..];
      AboveAll(s[0], s[1..], x, rest);
      PrependRanked(s[0], rest);
      assert multiset([s[0]] + rest) == multiset{s[0]} + multiset(rest);
      [s[0]] + rest
  }

  /** A line above `x` and above every line of `t` is above every line of
      any rearrangement of `t` with `x` added. */
  lemma AboveAll(h: BrandScore, t: seq<BrandScore>, x: BrandScore, rest: seq<BrandScore>)
    requires multiset(rest) == multiset(t) + multiset{x}
    requires h.total >= x.total
    requires forall k :: 0 <= k < |t| ==> h.total >= t[k].total
    ensures forall k :: 0 <= k < |rest| ==> h.total >= rest[k].total
  {
    forall k | 0 <= k < |rest| ensures h.total >= rest[k].total {
      assert rest[k] in multiset(rest);
      assert rest[k] in multiset(t) || rest[k] == x;
    }
  }

  /** A line at least as large as every line of a ranked table can lead it. */
  lemma PrependRanked(h: BrandScore, t: seq<BrandScore>)
    requires NonIncreasing(t)
    requires forall k :: 0 <= k < |t| ==> h.total >= t[k].total
    ensures NonIncreasing([h] + t)
  {
    forall i, j | 0 <= i < j < |[h] + t|
      ensures ([h] + t)[i].total >= ([h] + t)[j].total
    {
      if i > 0 {
        assert ([h] + t)[i] == t[i - 1];
      }
      assert ([h] + t)[j] == t[j - 1];
    }
  }

  /** `sort_values(ascending=False)`, by insertion. */
  function Rank(s: seq<BrandScore>): (r: seq<BrandScore>)
    ensures NonIncreasing(r)
    ensures multiset(r) == multiset(s)
  {
    if |s| == 0 then []
    else
      assert s == [s[0]] + s[1..];
      Insert(s[0], Rank(s[1..]))
  }

  /** A reordering keeps the same brands. */
  lemma PermutationLists(a: seq<BrandScore>, b: seq<BrandScore>)
    requires multiset(a) == multiset(b)
    ensures forall br :: Lists(a, br) <==> Lists(b, br)
  {
    forall br | Lists(a, br) ensures Lists(b, br) {
      var i :| 0 <= i < |a| && a[i].brand == br;
      assert a[i] in multiset(b);
      var j :| 0 <= j < |b| && b[j] == a[i];
    }
    forall br | Lists(b, br) ensures Lists(a, br) {
      var i :| 0 <= i < |b| && b[i].brand == br;
      assert b[i] in multiset(a);
      var j :| 0 <= j < |a| && a[j] == b[i];
    }
  }

  /** A reordering keeps the grand total. */
  lemma {:induction false} PermutationGrandTotal(a: seq<BrandScore>, b: seq<BrandScore>)
    requires multiset(a) == multiset(b)
    ensures GrandTotal(a) == GrandTotal(b)
    decreases |a|
  {
    if |a| > 0 {
      assert a[0] in multiset(b);
      var j :| 0 <= j < |b| && b[j] == a[0];
      RemoveAt(b, j);
      TailMultiset(a);
      PermutationGrandTotal(a[1..], b[..j] + b[j + 1..]);
      GrandTotalRemove(b, j);
    }
  }

  /** Dropping the head of a sequence drops it from the multiset. */
  lemma TailMultiset<T>(s: seq<T>)
    requires |s| > 0
    ensures multiset(s[1..]) == multiset(s) - multiset{s[0]}
  {
    assert s == [s[0]] + s[1..];
  }

  lemma {:induction false} GrandTotalRemove(b: seq<BrandScore>, j: nat)
    requires j < |b|
    ensures GrandTotal(b) == b[j].total + GrandTotal(b[..j] + b[j + 1..])
    decreases j
  {
    if j > 0 {
      GrandTotalRemove(b[1..], j - 1);
      assert b[1..][..j - 1] + b[1..][j..] == (b[..j] + b[j + 1..])[1..];
    } else {
      assert b[..j] + b[j + 1..] == b[1..];
    }
  }

  /** A reordering of a table with distinct brands has distinct brands. */
  lemma PermutationDistinct(a: seq<BrandScore>, b: seq<BrandScore>)
    requires multiset(a) == multiset(b) && DistinctBrands(a)
    ensures DistinctBrands(b)
  {
    forall i, j | 0 <= i < j < |b|
      ensures b[i].brand != b[j].brand
    {
      DistinctPair(a, b, i, j);
    }
  }

  lemma DistinctPair(a: seq<BrandScore>, b: seq<BrandScore>, i: nat, j: nat)
    requires multiset(a) == multiset(b) && DistinctBrands(a)
    requires i < j < |b|
    ensures b[i].brand != b[j].brand
  {
    assert b[i] in multiset(a) && b[j] in multiset(a);
    var i' :| 0 <= i' < |a| && a[i'] == b[i];
    var j' :| 0 <= j' < |a| && a[j'] == b[j];
    if i' == j' {
      TwiceCounted(b, i, j);
      DistinctOnce(a, b[i]);
    }
  }

  lemma TwiceCounted(b: seq<BrandScore>, i: nat, j: nat)
    requires i < j < |b| && b[i] == b[j]
    ensures multiset(b)[b[i]] >= 2
  {
    assert b == b[..i] + [b[i]] + b[i + 1..j] + [b[j]] + b[j + 1..];
  }

  /** In a table with distinct brands a line occurs at most once. */
  lemma {:induction false} DistinctOnce(a: seq<BrandScore>, y: BrandScore)
    requires DistinctBrands(a)
    ensures multiset(a)[y] <= 1
    decreases |a|
  {
    if |a| > 0 {
      assert a == [a[0]] + a[1..];
      DistinctOnce(a[1..], y);
      if a[0] == y {
        assert y !in a[1..];
      }
    }
  }

  /** Group, sum and rank (brand, weight) pairs. */
  function Aggregate(pairs: seq<(string, int)>): seq<BrandScore> {
    Rank(Totals(GroupBy(pairs)))
  }

  /** `brand_scores`: the rows with a brand, grouped by brand, summed and
      ranked. One line per brand that some row has, and no other line; each
      line's total is the sum of its brand's weights; the lines add up to
      the weight of all rows that have a brand; the table is ranked by total
      and is a reordering of the per-brand groups (tie order unspecified). */
  function BrandScores(items: seq<Classified>): (r: seq<BrandScore>)
    ensures NonIncreasing(r)
    ensures multiset(r) == multiset(Totals(GroupBy(Matched(items))))
    ensures DistinctBrands(r)
    ensures forall b :: Lists(r, b) <==> Mentions(items, b)
    ensures forall i :: 0 <= i < |r| ==> r[i].total == BrandTotal(items, r[i].brand)
    ensures GrandTotal(r) == MatchedTotal(items)
  {
    var pairs := Matched(items);
    var groups := GroupBy(pairs);
    var totals := Totals(groups);
    assert Aggregate(pairs) == Rank(totals);
    TotalsSpec(items, groups);
    GroupByGrandTotal(pairs);
    MatchedSum(items);
    var r := Aggregate(pairs);
    PermutationLists(totals, r);
    PermutationGrandTotal(totals, r);
    PermutationDistinct(totals, r);
    forall i | 0 <= i < |r| ensures r[i].total == BrandTotal(items, r[i].brand) {
      assert r[i] in multiset(totals);
    }
    r
  }

  // ---------------------------------------------------------------------
  // Why the reduction means what it says
  // ---------------------------------------------------------------------

  lemma {:induction false} SumAppend(a: seq<int>, b: seq<int>)
    ensures Sum(a + b) == Sum(a) + Sum(b)
    decreases |b|
  {
    if |b| > 0 {
      assert (a + b)[..|a + b| - 1] == a + b[..|b| - 1];
      SumAppend(a, b[..|b| - 1]);
    } else {
      assert a + b == a;
    }
  }

  /** The weights grouped under `b` add up to the brand's total. */
  lemma {:induction false} GroupSumIsBrandTotal(items: seq<Classified>, b: string)
    ensures Sum(ValuesFor(Matched(items), b)) == BrandTotal(items, b)
    decreases |items|
  {
    if |items| > 0 {
      var init := items[..|items| - 1];
      var last := items[|items| - 1];
      var extra := RowPair(last);
      assert Matched(items) == Matched(init) + extra;
      GroupSumIsBrandTotal(init, b);
      ValuesForAppend(Matched(init), extra, b);
      SumAppend(ValuesFor(Matched(init), b), ValuesFor(extra, b));
      RowPairSum(last, b);
    }
  }

  /** A row's pair adds its weight to its own brand only. */
  lemma RowPairSum(c: Classified, b: string)
    ensures Sum(ValuesFor(RowPair(c), b)) == if c.brand == Some(b) then c.score else 0
  {
    if c.brand.Some? {
      assert RowPair(c)[..0] == [];
      assert ValuesFor(RowPair(c), b) == (if c.brand.value == b then [c.score as int] else []);
      assert [c.score as int][..0] == [];
    }
  }

  /** The keys of the matched pairs are the brands the rows mention. */
  lemma {:induction false} MatchedKeys(items: seq<Classified>, b: string)
    ensures HasKey(Matched(items), b) <==> Mentions(items, b)
    decreases |items|
  {
    if |items| > 0 {
      var init := items[..|items| - 1];
      var last := items[|items| - 1];
      var extra := RowPair(last);
      MatchedKeys(init, b);
      var m := Matched(items);
      assert m == Matched(init) + extra;
      if HasKey(Matched(init), b) {
        var j :| 0 <= j < |Matched(init)| && Matched(init)[j].0 == b;
        assert m[j].0 == b;
      }
      if Mentions(init, b) {
        var j :| 0 <= j < |init| && init[j].brand == Some(b);
        assert items[j].brand == Some(b);
      }
      if HasKey(m, b) && !HasKey(Matched(init), b) {
        var j :| 0 <= j < |m| && m[j].0 == b;
        assert j >= |Matched(init)|;
        assert items[|items| - 1].brand == Some(b);
      }
      if Mentions(items, b) && !Mentions(init, b) {
        var j :| 0 <= j < |items| && items[j].brand == Some(b);
        assert j == |items| - 1;
        assert m[|m| - 1].0 == b;
      }
    }
  }

  /** Per-group totals inherit the grouping's guarantees. */
  lemma TotalsSpec(items: seq<Classified>, groups: seq<Bucket<string, int>>)
    requires IsGrouping(groups, Matched(items))
    ensures DistinctBrands(Totals(groups))
    ensures forall b :: Lists(Totals(groups), b) <==> Mentions(items, b)
    ensures forall i :: 0 <= i < |groups| ==> Totals(groups)[i].total == BrandTotal(items, Totals(groups)[i].brand)
  {
    var t := Totals(groups);
    forall i | 0 <= i < |groups|
      ensures t[i].total == BrandTotal(items, t[i].brand)
    {
      GroupSumIsBrandTotal(items, groups[i].key);
    }
    forall b
      ensures Lists(t, b) <==> Mentions(items, b)
    {
      MatchedKeys(items, b);
      if Lists(t, b) {
        var i :| 0 <= i < |t| && t[i].brand == b;
        assert groups[i].key == b;
      }
      if InBuckets(groups, b) {
        var i :| 0 <= i < |groups| && groups[i].key == b;
        assert t[i].brand == b;
      }
    }
  }

  /** The weights of a sequence of pairs, summed. */
  function PairSum(pairs: seq<(string, int)>): int {
    if |pairs| == 0 then 0 else PairSum(pairs[..|pairs| - 1]) + pairs[|pairs| - 1].1
  }

  lemma {:induction false} PairSumAppend(a: seq<(string, int)>, b: seq<(string, int)>)
    ensures PairSum(a + b) == PairSum(a) + PairSum(b)
    decreases |b|
  {
    if |b| > 0 {
      assert (a + b)[..|a + b| - 1] == a + b[..|b| - 1];
      PairSumAppend(a, b[..|b| - 1]);
    } else {
      assert a + b == a;
    }
  }

  lemma {:induction false} MatchedSum(items: seq<Classified>)
    ensures PairSum(Matched(items)) == MatchedTotal(items)
    decreases |items|
  {
    if |items| > 0 {
      var init := items[..|items| - 1];
      var last := items[|items| - 1];
      var extra := RowPair(last);
      MatchedSum(init);
      PairSumAppend(Matched(init), extra);
      if last.brand.Some? {
        assert extra[..0] == [];
      }
    }
  }

  /** Adding a value to a group adds it to the sum of all group totals. */
  lemma {:induction false} PlaceGrandTotal(bs: seq<Bucket<string, int>>, k: string, v: int)
    requires DistinctKeys(bs)
    ensures GrandTotal(Totals(Place(bs, k, v))) == GrandTotal(Totals(bs)) + v
    decreases |bs|
  {
    var r := Place(bs, k, v);
    if |bs| == 0 {
      assert [v][..0] == [];
      assert Sum([v]) == v;
      assert r == [Bucket(k, [v])];
      assert Totals(r) == [BrandScore(k, v)];
      assert GrandTotal(Totals(r)) == v + GrandTotal(Totals(r)[1..]);
    } else if bs[0].key == k {
      assert (bs[0].values + [v])[..|bs[0].values|] == bs[0].values;
      assert r[1..] == bs[1..];
      assert Totals(r)[1..] == Totals(r[1..]);
      assert Totals(bs)[1..] == Totals(bs[1..]);
    } else {
      PlaceGrandTotal(bs[1..], k, v);
      assert r[1..] == Place(bs[1..], k, v);
      assert Totals(r)[1..] == Totals(r[1..]);
      assert Totals(bs)[1..] == Totals(bs[1..]);
    }
  }

  /** Grouping neither loses nor invents weight. */
  lemma {:induction false} GroupByGrandTotal(pairs: seq<(string, int)>)
    ensures GrandTotal(Totals(GroupBy(pairs))) == PairSum(pairs)
    decreases |pairs|
  {
    if |pairs| > 0 {
      var init := pairs[..|pairs| - 1];
      var last := pairs[|pairs| - 1];
      var prev := GroupBy(init);
      assert DistinctKeys(prev);
      assert GroupBy(pairs) == Place(prev, last.0, last.1);
      GroupByGrandTotal(init);
      PlaceGrandTotal(prev, last.0, last.1);
    }
  }

  // ---------------------------------------------------------------------
  // Rows without a brand, and ties
  // ---------------------------------------------------------------------

  lemma {:induction false} MatchedAppend(a: seq<Classified>, b: seq<Classified>)
    ensures Matched(a + b) == Matched(a) + Matched(b)
    decreases |b|
  {
    if |b| == 0 {
      assert a + b == a;
    } else {
      assert (a + b)[..|a + b| - 1] == a + b[..|b| - 1];
      MatchedAppend(a, b[..|b| - 1]);
    }
  }

  /** A row without a brand changes nothing in the table, wherever it
      stands and whatever its weight. */
  lemma UnbrandedRowIgnored(front: seq<Classified>, score: nat, back: seq<Classified>)
    ensures BrandScores(front + [Classified(None, score)] + back) == BrandScores(front + back)
  {
    MatchedDropsUnbranded(front, score, back);
    BrandScoresDependsOnMatched(front + [Classified(None, score)] + back);
    BrandScoresDependsOnMatched(front + back);
  }

  lemma MatchedDropsUnbranded(front: seq<Classified>, score: nat, back: seq<Classified>)
    ensures Matched(front + [Classified(None, score)] + back) == Matched(front + back)
  {
    var dropped := [Classified(None, score)];
    var mf := Matched(front);
    var mb := Matched(back);
    MatchedAppend(front, dropped);
    MatchedOne(dropped[0]);
    assert Matched(front + dropped) == mf;
    MatchedAppend(front + dropped, back);
    MatchedAppend(front, back);
  }

  lemma MatchedOne(c: Classified)
    ensures Matched([c]) == RowPair(c)
  {
    assert [c][..0] == [];
  }

  lemma BrandScoresDependsOnMatched(items: seq<Classified>)
    ensures BrandScores(items) == Aggregate(Matched(items))
  {
  }

  /** The totals column of a table, top to bottom. */
  function TotalColumn(s: seq<BrandScore>): (t: seq<int>)
    ensures |t| == |s|
    ensures forall i :: 0 <= i < |s| ==> t[i] == s[i].total
  {
    seq(|s|, i requires 0 <= i < |s| => s[i].total)
  }

  lemma TotalColumnAppend(x: seq<BrandScore>, y: seq<BrandScore>)
    ensures TotalColumn(x + y) == TotalColumn(x) + TotalColumn(y)
  {
  }

  lemma TotalColumnSplit(pre: seq<BrandScore>, x: BrandScore, post: seq<BrandScore>)
    ensures multiset(TotalColumn(pre + [x] + post))
            == multiset(TotalColumn(pre + post)) + multiset{x.total}
  {
    TotalColumnAppend(pre + [x], post);
    TotalColumnAppend(pre, [x]);
    TotalColumnAppend(pre, post);
    assert TotalColumn([x]) == [x.total];
  }

  /** Taking the `j`-th line out of a table takes it out of the multiset. */
  lemma RemoveAt(b: seq<BrandScore>, j: nat)
    requires j < |b|
    ensures b == b[..j] + [b[j]] + b[j + 1..]
    ensures multiset(b[..j] + b[j + 1..]) == multiset(b) - multiset{b[j]}
  {
    assert b == b[..j] + [b[j]] + b[j + 1..];
  }

  lemma {:induction false} TotalColumnPermutation(a: seq<BrandScore>, b: seq<BrandScore>)
    requires multiset(a) == multiset(b)
    ensures multiset(TotalColumn(a)) == multiset(TotalColumn(b))
    decreases |a|
  {
    if |a| > 0 {
      var x := a[0];
      assert x in multiset(b);
      var j :| 0 <= j < |b| && b[j] == x;
      RemoveAt(b, j);
      RemoveAt(a, 0);
      var rest := b[..j] + b[j + 1..];
      assert a[..0] + a[1..] == a[1..];
      TotalColumnPermutation(a[1..], rest);
      TotalColumnSplit(b[..j], x, b[j + 1..]);
      TotalColumnSplit([], x, a[1..]);
      assert [] + [x] + a[1..] == a;
    }
  }

  /** A column of numbers, largest first. */
  predicate Descending(t: seq<int>) {
    forall i, j :: 0 <= i < j < |t| ==> t[i] >= t[j]
  }

  lemma DescendingTail(t: seq<int>)
    requires |t| > 0 && Descending(t)
    ensures Descending(t[1..])
  {
    forall i, j | 0 <= i < j < |t| - 1 ensures t[1..][i] >= t[1..][j] {
      assert t[1..][i] == t[i + 1] && t[1..][j] == t[j + 1];
    }
  }

  /** Two descending columns holding the same numbers are equal. */
  lemma {:induction false} SortedColumnsEqual(t: seq<int>, u: seq<int>)
    requires multiset(t) == multiset(u)
    requires Descending(t) && Descending(u)
    ensures t == u
    decreases |t|
  {
    assert |u| == |multiset(u)| == |multiset(t)| == |t|;
    if |t| > 0 {
      HeadsAgree(t, u);
      DescendingTail(t);
      DescendingTail(u);
      SortedColumnsEqual(t[1..], u[1..]);
      assert t == [t[0]] + t[1..];
      assert u == [u[0]] + u[1..];
    }
  }

  /** Two non-empty descending columns holding the same numbers start with
      the same number and go on with the same numbers. */
  lemma HeadsAgree(t: seq<int>, u: seq<int>)
    requires multiset(t) == multiset(u) && |t| > 0
    requires Descending(t) && Descending(u)
    ensures |u| > 0 && t[0] == u[0] && multiset(t[1..]) == multiset(u[1..])
  {
    assert |u| == |multiset(u)| == |multiset(t)| == |t|;
    SortedHeadIsMax(t, u[0]);
    SortedHeadIsMax(u, t[0]);
    TailMultiset(t);
    TailMultiset(u);
  }

  /** The head of a descending column is at least any of its values. */
  lemma SortedHeadIsMax(t: seq<int>, x: int)
    requires Descending(t)
    requires x in multiset(t)
    ensures t[0] >= x
  {
    var k :| 0 <= k < |t| && t[k] == x;
    if k > 0 {
      assert t[0] >= t[k];
    }
  }

  /** The tie order is left open, but the totals column is not: any two
      ranked reorderings of the same lines show the same totals in the same
      places. */
  lemma RankedTotalsUnique(a: seq<BrandScore>, b: seq<BrandScore>)
    requires NonIncreasing(a) && NonIncreasing(b) && multiset(a) == multiset(b)
    ensures TotalColumn(a) == TotalColumn(b)
  {
    TotalColumnPermutation(a, b);
    SortedColumnsEqual(TotalColumn(a), TotalColumn(b));
  }
}
