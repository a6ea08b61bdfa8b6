# Brand visibility scoring, modelled in Dafny

This project models the scoring core of a small brand-visibility toolkit.
The toolkit has two pipelines.

- The web-search pipeline pages through a ranked result list ten results at
  a time until `N` results are held. It tags each result with the first brand
  whose synonym occurs in the lowered title and snippet or in the lowered
  host of its link. It weights each result by its rank (100 for rank 1 down
  to 10 for rank 10, 5 otherwise). It then sums the weights per brand and
  ranks the brands by total.
- The video pipeline builds one query per base brand ("Atomberg smart fan",
  ...). It looks up the videos of each query and computes each video's
  engagement rate, `(likes + comments) / views * 100`, or 0 when there are no
  views. It then averages the rates per query.

Network calls become parameters: a `Provider` function for the ranked list,
and `SearchProvider` / `DetailsProvider` functions for the video service.

Modules:

- `Wrappers`: `Option` and `Result`.
- `Text`: ASCII lower/upper case, substring search, and Python's `str.strip`.
- `Url`: the host part (`netloc`) that Python's `urlparse` extracts, including its `ValueError` on unbalanced brackets.
- `Grouping`: a first-seen-order group-by shared by both aggregations.
- `Brands`: the synonym table and brand detection.
- `Scoring`: the position weight.
- `Visibility`: classification and the drop/group/sum/sort reduction.
- `Pagination`: the result-collection loop.
- `Engagement`: the video pipeline.
- `Scenarios`: worked examples on concrete inputs.

Matching is by substring, exactly as in the code. So the short synonym
`"mi"` matches inside any word that contains it: a row titled "Mix" is
credited to Mi (`Scenarios.MixIsMi`). Words such as "premium" behave the same
way. The model keeps this behaviour.

Some behaviours of the scripts are easy to assume otherwise. The model keeps the scripts' behaviour in each case:

- One might expect a malformed link simply to match no brand. A link that `urlparse` rejects (only one of `[` and `]` in the host) raises `ValueError` and aborts the whole table. The model returns `Failure` from `DetectBrand`, and `Classify` propagates it.
- One might expect one bad video item to be skipped. An item without `snippet` or `statistics` raises `KeyError` and aborts the run. The model returns `Failure(KeyError(...))`.
- One might expect a percentage between 0 and 100. The engagement rate exceeds 100 when likes plus comments exceed views. The contract bounds it by 100 only when likes plus comments do not exceed views.
- One might expect the collection loop to stop on an empty page. It does not: it keeps requesting until `N` rows are held. The model bounds the number of requests by a fuel parameter.
- An empty video table makes the per-query `groupby` raise `KeyError`. The model returns `Failure`.

## Model

| member | source | states |
|---|---|---|
| Brands.VariantTable | plot_organic_result.py:13-23 | The synonym table `BrandVariants` has nine entries with distinct brand names, and every brand has at least one term. |
| Brands.AnyTermIffMatches | plot_organic_result.py:35-36 | The term loop of one brand reports a hit exactly when some term of that brand occurs in the text or in the host. |
| Brands.DetectIn | plot_organic_result.py:34-38 | No brand is returned iff no table entry matches. A returned brand is the brand of a matching entry, and no earlier entry matches, so the first declared brand wins. |
| Brands.DetectBrand | plot_organic_result.py:28-38 | Detection fails exactly when the link's host cannot be parsed. Otherwise it yields no brand or a brand declared in the synonym table. |
| Brands.DetectInPrefix | plot_organic_result.py:34-38 | A match in the first part of the table decides the result. With no match there, the result is that of the rest of the table. |
| Brands.TermsAreLowercase | plot_organic_result.py:13-23 | Every synonym is lowercase, so it can match the lowered text and host. |
| Brands.DetectBrandCaseInsensitive | plot_organic_result.py:29-32 | Rows whose title, snippet and link differ only in letter case get the same result. |
| Brands.DetectBrandUpper | plot_organic_result.py:29-32 | Upper-casing a row's title, snippet and link does not change its brand. |
| Scoring.PositionScore | plot_organic_result.py:45-51 | Rank p in 1..10 weighs 110 - 10p. Any other or missing position weighs 5. Every weight is 5 or a multiple of ten between 10 and 100. |
| Scoring.ScoreDecreasing | plot_organic_result.py:45-51 | Weights strictly decrease over ranks 1..10, and all stay above the weight of rank 11 or of a missing rank. |
| Text.Lower | plot_organic_result.py:29-32 | Lowering keeps the length and maps each character on its own: `A`-`Z` to `a`-`z`, every other character unchanged. |
| Text.LowerIsLowercase | plot_organic_result.py:29 | A lowered string has no upper-case letter, and lowering twice is lowering once. |
| Text.ContainsIffOccurs | plot_organic_result.py:36 | The executable substring test `term in text` holds iff the term occurs at some index. |
| Text.Strip | yt_engagement_score.py:19 | The stripped keyword is a slice of the input. Everything cut off is whitespace, and the result neither starts nor ends with whitespace. |
| Text.StripIdempotent | yt_engagement_score.py:19 | Stripping twice is stripping once. |
| Url.Netloc | plot_organic_result.py:32 | A parsed host never contains `/`, `?` or `#`, and holds both brackets or neither. A failure, or a non-empty host, needs the `//` marker after the scheme. |
| Url.NetlocIsSlice | plot_organic_result.py:32 | A parsed host occurs in the sanitised link and contains no `/`, `?` or `#`. |
| Url.NetlocOfAuthority | plot_organic_result.py:32 | For `scheme://host/rest` with a well-formed scheme and a bracket-free host, the parsed host is `host`. |
| Url.NetlocWithoutSlash | plot_organic_result.py:32 | A link with no `/` has the empty host, e.g. `atomberg.com`. |
| Url.NetlocCaseEq | plot_organic_result.py:32 | Links that differ only in letter case parse alike, to hosts that differ only in letter case. |
| Grouping.Place | plot_organic_result.py:60 | Adding one pair appends its value to its key's group, or opens a new group at the end. Keys stay distinct. |
| Grouping.GroupBy | plot_organic_result.py:60-61 | The groups have distinct keys. A key has a group iff some pair has that key. Each group holds that key's values in input order. |
| Grouping.ValuesForAppend | plot_organic_result.py:60 | The values of a key in a concatenation are its values in each part, in order. |
| Visibility.Classify | plot_organic_result.py:40-53 | Classification succeeds iff every row's link parses. Row i then carries its detected brand and its position weight. |
| Visibility.Insert | plot_organic_result.py:62 | Inserting a line into a ranked table keeps it ranked and adds exactly that line. |
| Visibility.Rank | plot_organic_result.py:62 | The ranked table is non-increasing by total and a permutation of its input. |
| Visibility.BrandScores | plot_organic_result.py:58-63 | The table is ranked, has distinct brands, and lists exactly the brands some row mentions. Each total is that brand's summed weight, and the totals add up to the weight of all branded rows. |
| Visibility.TotalsSpec | plot_organic_result.py:59-61 | Per-group sums have distinct brands, cover exactly the mentioned brands, and carry each brand's total. |
| Visibility.GroupSumIsBrandTotal | plot_organic_result.py:59-61 | Summing a brand's group gives the summed weight of the rows classified as that brand. |
| Visibility.MatchedKeys | plot_organic_result.py:59 | After dropping unbranded rows, a brand still has pairs iff some row names it. |
| Visibility.GroupByGrandTotal | plot_organic_result.py:60-61 | Grouping and summing loses no weight: the group totals add up to the total of the pairs. |
| Visibility.PermutationGrandTotal | plot_organic_result.py:62 | Reordering a table does not change its grand total. |
| Visibility.PermutationDistinct | plot_organic_result.py:62 | Reordering a table keeps its brands distinct. |
| Visibility.PermutationLists | plot_organic_result.py:62 | Reordering a table keeps the same brands listed. |
| Visibility.UnbrandedRowIgnored | plot_organic_result.py:59 | A row without a brand, at any place and with any weight, leaves the table unchanged. |
| Visibility.SortedColumnsEqual | plot_organic_result.py:62 | Two non-increasing integer sequences with the same elements are equal. |
| Visibility.RankedTotalsUnique | plot_organic_result.py:62 | Any two rankings of the same lines show the same column of totals, whatever their tie order. |
| Pagination.Normalize | organic_result.py:39-58 | A row keeps the item's position, missing or not, and carries its page. Each present text field is kept, and each missing one becomes "". |
| Pagination.CollectFrom | organic_result.py:32-63 | A run makes a request iff fewer than `n` rows are held and fuel is left, the first one at `start`. It makes at most `fuel` requests. The rows already held stay in front, and the total never passes `n`. |
| Pagination.Collect | organic_result.py:28-63 | A whole run requests anything iff `N` and the fuel are positive, first at offset 0. It holds at most `N` rows. |
| Pagination.AppendPage | organic_result.py:38-61 | The inner loop appends the page's items, defaulted and tagged with page `start // 10 + 1`, until `n` rows are held. |
| Pagination.CollectFromSpec | organic_result.py:32-63 | A run from any offset makes its requests at consecutive offsets, ten apart. Its rows are the first `n` of what it held plus the pages it fetched. Each request happened while fewer than `n` rows were held. It stops at `n` rows or when fuel runs out. |
| Pagination.CollectSpec | organic_result.py:28-63 | A whole run requests offsets 0, 10, 20, ... and keeps the first `n` rows of those pages. It requests again only while fewer than `n` are held, and stops as soon as `n` are held or fuel runs out. |
| Pagination.CollectBound | organic_result.py:60-61 | A run never holds more than `n` rows. |
| Pagination.CollectExact | organic_result.py:32-63 | If the provider serves `n` rows within the fuel, the run yields exactly the first `n` rows served. |
| Pagination.PagesGrow | organic_result.py:32-63 | The rows of fewer requests are a prefix of the rows of more requests. |
| Pagination.PagesOrdered | organic_result.py:40 | Rows of the first `k` pages carry page numbers 1 to `k`, non-decreasing along the rows. |
| Pagination.CollectPagesOrdered | organic_result.py:40 | Page numbers never decrease along the collected rows. |
| Pagination.TwoFullPages | organic_result.py:16-63 | With two full pages and `N = 20`, the run requests offsets 0 and 10. Rows 0-9 are page 1's items and rows 10-19 are page 2's items. |
| Pagination.Paginate | organic_result.py:28-63 | The imperative loop returns exactly the rows and offsets of the functional run. It holds at most `n` rows, and its offsets are 0, 10, 20, .... |
| Engagement.BrandQueries | yt_engagement_score.py:25-28 | One query per base brand, in order. Each is the base brand, a space, then the keyword. |
| Engagement.SearchVideos | yt_engagement_score.py:38-50 | An id is returned iff some hit carries it. Hits without an id are skipped. |
| Engagement.SearchVideosOne | yt_engagement_score.py:48 | One hit gives its id, or nothing when it has no `videoId`. |
| Engagement.SearchVideosAppend | yt_engagement_score.py:48 | The ids of two hit lists in a row are the ids of each, concatenated. With the one-hit case this keeps hit order and repeated ids. |
| Engagement.VideoRecord | yt_engagement_score.py:66-87 | A video fails iff it lacks `snippet` or `statistics`, with the `snippet` error first. Otherwise the record is tagged with the query, a missing title becomes "" and a missing count 0, and the rate is the engagement rate of the record's own counts. |
| Engagement.EngagementRate | yt_engagement_score.py:70-78 | With no views the rate is 0. Otherwise rate times views equals 100 times likes plus comments. The rate is never negative, and it is at most 100 when likes plus comments do not exceed views. |
| Engagement.GetVideoStats | yt_engagement_score.py:56-89 | It succeeds iff every video has a snippet and statistics, and then gives one record per video tagged with the query. Otherwise the error is the first failing video's missing key. |
| Engagement.CollectAll | yt_engagement_score.py:95-106 | The run succeeds iff every query succeeds. The records are the per-query records concatenated in query order, each tagged with one of the queries. A failure is the first failing query's error. |
| Engagement.CollectAllAppend | yt_engagement_score.py:95-106 | Collecting over two query lists in a row succeeds iff both parts succeed. Its records are the parts' records concatenated. |
| Engagement.AverageByQuery | yt_engagement_score.py:112-117 | Fails on an empty table. Otherwise each query that produced a record is listed exactly once, with the mean of that query's rates. |
| Engagement.AveragesSpec | yt_engagement_score.py:115 | Grouping rates by query and averaging lists each produced query once, with the mean of its rates. |
| Engagement.MeanBounds | yt_engagement_score.py:115 | A group's average, times the group's size, is the sum of its rates, and the average lies between the smallest and largest rate. |
| Scenarios.UpperCaseTitle | plot_organic_result.py:29 | The row titled "ATOMBERG fan" is credited to Atomberg. |
| Scenarios.BrandFromHost | plot_organic_result.py:32-36 | A row with empty text and link `https://www.atomberg.com/x` is credited to Atomberg through its host. |
| Scenarios.AtombergRow | plot_organic_result.py:28-38 | The row "Atomberg smart fan" is credited to Atomberg. |
| Scenarios.OrientRow | plot_organic_result.py:28-38 | The row "Orient" is credited to Orient, not to Atomberg, which is tried first. |
| Scenarios.GenericRow | plot_organic_result.py:28-38 | The row "Fan" with link `x.com` matches no brand. |
| Scenarios.MixIsMi | plot_organic_result.py:20 | The row "Mix" is credited to Mi, because "mi" occurs inside "mix". |
| Scenarios.EndToEnd | plot_organic_result.py:28-63 | Rows Atomberg (rank 1), Orient (rank 2) and an unbranded rank-11 row give the table [Atomberg 100, Orient 90]. |
| Scenarios.TwoBrandTable | plot_organic_result.py:58-63 | Classified rows (Atomberg 100), (Orient 90) and (none 5) give [Atomberg 100, Orient 90]. |
| Scenarios.SixPerCent | yt_engagement_score.py:75-78 | 1000 views, 50 likes and 10 comments give a rate of 6. |
| Scenarios.ZeroViews | yt_engagement_score.py:78 | Zero views give a rate of 0, for all likes and comments. |
| Scenarios.MissingStatistics | yt_engagement_score.py:68 | A video without `statistics` fails with `KeyError("statistics")`. |
| Scenarios.MissingCounts | yt_engagement_score.py:70-86 | A missing like count counts as 0, and a missing title becomes "". |

## Left out

- Network and API calls (SerpAPI, the video service), `.env` loading, `input()`, CSV files, printing and plotting are not modelled. The providers are function parameters, and the typed keyword is a string parameter.
- The two web-search scripts exchange rows through a CSV file, and that round trip is not modelled. An empty link is written as "" and read back as NaN, and `urlparse` on NaN raises `AttributeError`. Empty titles and snippets come back as NaN and are formatted as the text `nan`. The model hands the collected rows straight to classification, with "" kept as "".
- `int(...)` parsing of the count strings is not modelled. Counts arrive as natural numbers.
- Engagement.EngagementRate: the value is not passed through `round(..., 4)`. It is the exact rational rate, because Dafny has no floating-point model here.
- Engagement.AverageByQuery: states no order of the lines. pandas sorts the `groupby` keys, while the model keeps first-seen order.
- Visibility.BrandScores: states no order among brands with equal totals. The sort pandas uses is not stable, so the source promises none.
- Pagination.CollectSpec: the number of requests is bounded by `fuel`. The source has no bound and loops forever on a provider that never serves `N` results. With enough fuel the model behaves exactly like the source.
- Pagination.Paginate: the same fuel bound applies to the imperative loop.
- Url.NetlocIsSlice: `urlparse`'s validation of bracketed IPv6 hosts and its NFKC check on non-ASCII hosts are not modelled. Only the unbalanced-bracket `ValueError` is.
- Text.LowerIsLowercase: lower-casing maps ASCII letters only. Python's `str.lower` also maps non-ASCII characters, and some of them become ASCII letters. U+212A KELVIN SIGN becomes `k`, and U+0130 becomes `i` plus a combining dot. So rows containing such characters can be classified differently: the script credits a title `O\u212AOS` to Okos and `M\u0130` to Mi, and the model leaves both unbranded. The case-insensitivity lemmas hold only for ASCII case.
- Scenarios.EndToEnd: uses the shorter titles "Orient" and "Fan" in place of "Orient smart fan" and "Generic fan". They match the same brands and keep the proof small.
- Behaviour that depends on the Python version of `urlsplit` (e.g., whether a numeric-looking port ends the scheme) follows current CPython only.
