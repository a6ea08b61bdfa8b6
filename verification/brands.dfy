/** Brand detection: the first brand of an ordered synonym table with a
    term found in the lower-cased title and snippet, or in the lower-cased
    host of the link. */
module Brands {
  import opened Wrappers
  import opened Text
  import opened Url
  import opened Pagination

  /** One row of the synonym table: a canonical brand and its match terms. */
  datatype BrandEntry = BrandEntry(brand: string, terms: seq<string>)

  /** `brand_variants`, in declaration order, which is the order of trial. */
  const BrandVariants: seq<BrandEntry> := [
    BrandEntry("Atomberg", ["atomberg", "atom berg", "atom-berg"]),
    BrandEntry("Orient", ["orient", "orient electric"]),
    BrandEntry("Crompton", ["crompton"]),
    BrandEntry("Havells", ["havells"]),
    BrandEntry("Bajaj", ["bajaj", "bajaj electricals"]),
    BrandEntry("V-Guard", ["v-guard", "vguard"]),
    BrandEntry("Mi", ["xiaomi", "mi.com", "mi"]),
    BrandEntry("Okos", ["okos"]),
    BrandEntry("EGLO", ["eglo"])
  ]

  /** The table declares `b` as a brand. */
  predicate IsBrand(table: seq<BrandEntry>, b: string) {
    exists k :: 0 <= k < |table| && table[k].brand == b
  }

  /** Some term of `e` occurs in the text or in the host. */
  ghost predicate Matches(e: BrandEntry, text: string, host: string) {
    exists j :: 0 <= j < |e.terms| && (Occurs(e.terms[j], text) || Occurs(e.terms[j], host))
  }

  /** The inner loop over one brand's terms, in order, stopping at the
      first term found in either string. */
  predicate AnyTerm(terms: seq<string>, text: string, host: string) {
    |terms| > 0 && (Contains(text, terms[0]) || Contains(host, terms[0])
                    || AnyTerm(terms[1..], text, host))
  }

  lemma {:induction false} AnyTermIffMatches(e: BrandEntry, text: string, host: string)
    ensures AnyTerm(e.terms, text, host) <==> Matches(e, text, host)
    decreases |e.terms|
  {
    if |e.terms| > 0 {
      ContainsIffOccurs(text, e.terms[0]);
      ContainsIffOccurs(host, e.terms[0]);
      var rest := BrandEntry(e.brand, e.terms[1..]);
      AnyTermIffMatches(rest, text, host);
      if Matches(rest, text, host) {
        var j :| 0 <= j < |rest.terms| && (Occurs(rest.terms[j], text) || Occurs(rest.terms[j], host));
        assert e.terms[j + 1] == rest.terms[j];
      }
      if Matches(e, text, host) && !Occurs(e.terms[0], text) && !Occurs(e.terms[0], host) {
        var j :| 0 <= j < |e.terms| && (Occurs(e.terms[j], text) || Occurs(e.terms[j], host));
        assert rest.terms[j - 1] == e.terms[j];
      }
    }
  }

  /** The outer loop: the first brand, in table order, that has a term in
      the text or the host; `None` when no brand has one. */
  function DetectIn(table: seq<BrandEntry>, text: string, host: string): (r: Option<string>)
    ensures r.None? <==> forall k :: 0 <= k < |table| ==> !Matches(table[k], text, host)
    ensures r.Some? ==>
              exists k :: 0 <= k < |table| && table[k].brand == r.value
                          && Matches(table[k], text, host)
                          && forall j :: 0 <= j < k ==> !Matches(table[j], text, host)
  {
    if |table| == 0 then None
    else
      AnyTermIffMatches(table[0], text, host);
      if AnyTerm(table[0].terms, text, host) then Some(table[0].brand)
      else
        var r := DetectIn(table[1..], text, host);
        assert forall k :: 1 <= k < |table| ==> table[k] == table[1..][k - 1];
        r
  }

  /** `detect_brand(row)`: the search text is the lower-cased
      `title + " " + snippet`, the host the lower-cased network location of
      the link; a link whose network location `urlparse` rejects raises. */
  function DetectBrand(row: SearchResult): (r: Result<Option<string>, UrlError>)
    ensures r.Failure? <==> Netloc(row.link).Failure?
    ensures r.Success? ==> r.value.None? || IsBrand(BrandVariants, r.value.value)
  {
    var text := Lower(row.title + " " + row.snippet);
    match Netloc(row.link)
    case Failure(e) => Failure(e)
    case Success(host) => Success(DetectIn(BrandVariants, text, Lower(host)))
  }

  // ---------------------------------------------------------------------
  // Properties of detection
  // ---------------------------------------------------------------------

  /** Once a brand of the leading part of the table matches, the rest of
      the table is never consulted; when none does, the result is that of
      the rest alone. */
  lemma {:induction false} DetectInPrefix(front: seq<BrandEntry>, back: seq<BrandEntry>, text: string, host: string)
    ensures DetectIn(front, text, host).Some? ==>
              DetectIn(front + back, text, host) == DetectIn(front, text, host)
    ensures DetectIn(front, text, host).None? ==>
              DetectIn(front + back, text, host) == DetectIn(back, text, host)
    decreases |front|
  {
    if |front| == 0 {
      assert front + back == back;
    } else {
      assert (front + back)[0] == front[0];
      assert (front + back)[1..] == front[1..] + back;
      DetectInPrefix(front[1..], back, text, host);
    }
  }

  /** Every term of the table is lower-case, so matching against lower-cased
      text is matching regardless of case. */
  lemma TermsAreLowercase()
    ensures forall k, j :: 0 <= k < |BrandVariants| && 0 <= j < |BrandVariants[k].terms| ==>
              IsLowercase(BrandVariants[k].terms[j])
  {
  }

  /** The table has nine entries, in declaration order, with distinct brand
      names, and every brand has at least one term. */
  lemma VariantTable()
    ensures |BrandVariants| == 9
    ensures forall k, j :: 0 <= k < j < |BrandVariants| ==> BrandVariants[k].brand != BrandVariants[j].brand
    ensures forall k :: 0 <= k < |BrandVariants| ==> |BrandVariants[k].terms| > 0
  {
  }

  /** Title, snippet and link matter only up to the case of their letters;
      position and page do not matter at all. */
  lemma DetectBrandCaseInsensitive(a: SearchResult, b: SearchResult)
    requires CaseEq(a.title, b.title) && CaseEq(a.snippet, b.snippet) && CaseEq(a.link, b.link)
    ensures DetectBrand(a) == DetectBrand(b)
  {
    CaseEqConcat(a.title, b.title, " ", " ");
    CaseEqConcat(a.title + " ", b.title + " ", a.snippet, b.snippet);
    NetlocCaseEq(a.link, b.link);
  }

  /** In particular, upper-casing a row leaves its brand unchanged. */
  lemma DetectBrandUpper(row: SearchResult)
    ensures DetectBrand(row.(title := Upper(row.title), snippet := Upper(row.snippet),
                             link := Upper(row.link))) == DetectBrand(row)
  {
    UpperCaseEq(row.title);
    UpperCaseEq(row.snippet);
    UpperCaseEq(row.link);
    DetectBrandCaseInsensitive(row.(title := Upper(row.title), snippet := Upper(row.snippet),
                                    link := Upper(row.link)), row);
  }
}
