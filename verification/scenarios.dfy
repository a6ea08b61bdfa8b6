/** Worked examples: concrete rows and videos run through the model. */
module Scenarios {
  import opened Wrappers
  import opened Text
  import opened Url
  import opened Pagination
  import opened Brands
  import opened Scoring
  import opened Visibility
  import opened Engagement
  import opened Grouping

  /** Upper-case words in the title still name the brand. */
  lemma UpperCaseTitle(row: SearchResult)
    requires row.title == "ATOMBERG fan" && row.snippet == "" && row.link == ""
    ensures DetectBrand(row) == Success(Some("Atomberg"))
  {
    NetlocWithoutSlash(row.link);
    var text := Lower(row.title + " " + row.snippet);
    LowerUpperText(row.title + " " + row.snippet);
    assert OccursAt("atomberg", text, 0);
    AnyTermIffMatches(BrandVariants[0], text, "");
  }

  lemma LowerUpperText(s: string)
    requires s == "ATOMBERG fan" + " " + ""
    ensures Lower(s) == "atomberg fan "
  {
  }

  /** The host alone can name the brand: a row linking to
      `https://www.atomberg.com/x` is Atomberg's, whatever its text. */
  lemma BrandFromHost(row: SearchResult, scheme: string, host: string, tail: string)
    requires scheme == "https" && host == "www.atomberg.com" && tail == "/x"
    requires row.link == scheme + "://" + host + tail
    ensures DetectBrand(row) == Success(Some("Atomberg"))
  {
    HostOfLink(scheme, host, tail);
    LowerHost(host);
    HostHasTerm(host);
    var text := Lower(row.title + " " + row.snippet);
    assert BrandVariants[0].terms[0] == "atomberg";
    assert Occurs(BrandVariants[0].terms[0], host);
    assert Matches(BrandVariants[0], text, host);
    AnyTermIffMatches(BrandVariants[0], text, host);
  }

  lemma HostHasTerm(host: string)
    requires host == "www.atomberg.com"
    ensures Occurs("atomberg", host)
  {
    assert OccursAt("atomberg", host, 4);
  }

  lemma LowerHost(host: string)
    requires host == "www.atomberg.com"
    ensures Lower(host) == host
  {
  }

  /** The network location of a link with scheme and path. */
  lemma HostOfLink(scheme: string, host: string, tail: string)
    requires scheme == "https" && host == "www.atomberg.com" && tail == "/x"
    ensures Netloc(scheme + "://" + host + tail) == Success(host)
  {
    HostChars(host);
    SchemeChars(scheme);
    NetlocOfAuthority(scheme, host, tail);
  }

  lemma HostChars(host: string)
    requires host == "www.atomberg.com"
    ensures forall k :: 0 <= k < |host| ==> !IsNetlocDelim(host[k]) && !IsUnsafe(host[k])
    ensures '[' !in host && ']' !in host
  {
  }

  lemma SchemeChars(scheme: string)
    requires scheme == "https"
    ensures |scheme| > 0 && IsAsciiAlpha(scheme[0]) && AllSchemeChars(scheme)
  {
  }

  // ---------------------------------------------------------------------
  // A three-row table, end to end
  // ---------------------------------------------------------------------

  /** `t` cannot occur in `s` at a glance: it is longer, or one of its
      characters is missing from `s`. */
  predicate Absent(t: string, s: string)
    decreases |t|
  {
    |t| > |s| || (|t| > 0 && (t[0] !in s || Absent(t[1..], s)))
  }

  lemma {:induction false} AbsentNotOccurs(t: string, s: string)
    requires Absent(t, s)
    ensures !Occurs(t, s)
    decreases |t|
  {
    if |t| > |s| {
    } else if t[0] !in s {
      OccursHead(t, s);
    } else {
      AbsentNotOccurs(t[1..], s);
      OccursTail(t, s);
    }
  }

  lemma OccursHead(t: string, s: string)
    requires |t| > 0
    ensures Occurs(t, s) ==> t[0] in s
  {
    if Occurs(t, s) {
      var i: nat :| OccursAt(t, s, i);
      assert s[i] == t[0];
    }
  }

  lemma OccursTail(t: string, s: string)
    requires |t| > 0
    ensures Occurs(t, s) ==> Occurs(t[1..], s)
  {
    if Occurs(t, s) {
      var i: nat :| OccursAt(t, s, i);
      assert s[i + 1..i + |t|] == t[1..];
      assert OccursAt(t[1..], s, i + 1);
    }
  }

  /** No term can occur in the text or in the host. */
  predicate TermsAbsent(terms: seq<string>, text: string, host: string)
    decreases |terms|
  {
    |terms| == 0
    || (Absent(terms[0], text) && Absent(terms[0], host)
        && TermsAbsent(terms[1..], text, host))
  }

  /** A brand none of whose terms can occur in the text or the host. */
  lemma {:induction false} Unmatched(e: BrandEntry, text: string, host: string)
    requires TermsAbsent(e.terms, text, host)
    ensures !AnyTerm(e.terms, text, host)
    decreases |e.terms|
  {
    if |e.terms| > 0 {
      AbsentNotOccurs(e.terms[0], text);
      AbsentNotOccurs(e.terms[0], host);
      ContainsIffOccurs(text, e.terms[0]);
      ContainsIffOccurs(host, e.terms[0]);
      Unmatched(BrandEntry(e.brand, e.terms[1..]), text, host);
    }
  }

  /** A link without a `/` has an empty host. */
  lemma NoSlash(link: string)
    requires '/' !in link
    ensures Netloc(link) == Success("")
  {
    NetlocWithoutSlash(link);
  }

  lemma AtombergRow(row: SearchResult)
    requires row.title == "Atomberg smart fan" && row.snippet == "" && row.link == "atomberg.com"
    ensures DetectBrand(row) == Success(Some("Atomberg"))
  {
    NoSlash(row.link);
    LowerAtombergText(row.title + " " + row.snippet);
    AtombergTextMatches(BrandVariants);
  }

  lemma AtombergTextMatches(table: seq<BrandEntry>)
    requires table == BrandVariants
    ensures DetectIn(table, "atomberg smart fan ", "") == Some("Atomberg")
  {
    AtombergInText();
  }

  lemma AtombergInText()
    ensures AnyTerm(BrandVariants[0].terms, "atomberg smart fan ", "")
  {
    assert OccursAt("atomberg", "atomberg smart fan ", 0);
    AnyTermIffMatches(BrandVariants[0], "atomberg smart fan ", "");
  }

  lemma OrientRow(row: SearchResult)
    requires row.title == "Orient" && row.snippet == "" && row.link == "orientfan.com"
    ensures DetectBrand(row) == Success(Some("Orient"))
  {
    NoSlash(row.link);
    LowerOrientText(row.title + " " + row.snippet);
    OrientTextMatches(BrandVariants);
  }

  lemma OrientTextMatches(table: seq<BrandEntry>)
    requires table == BrandVariants
    ensures DetectIn(table, "orient ", "") == Some("Orient")
  {
    AtombergNotInOrientText();
    OrientInOrientText();
    assert table[1..][0] == table[1];
  }

  /** Every Atomberg term is longer than the text. */
  lemma AtombergNotInOrientText()
    ensures !AnyTerm(BrandVariants[0].terms, "orient ", "")
  {
    var e := BrandVariants[0];
    assert e == BrandEntry("Atomberg", ["atomberg", "atom berg", "atom-berg"]);
    Unmatched(e, "orient ", "");
  }

  lemma OrientInOrientText()
    ensures AnyTerm(BrandVariants[1].terms, "orient ", "")
  {
    assert OccursAt("orient", "orient ", 0);
    AnyTermIffMatches(BrandVariants[1], "orient ", "");
  }

  lemma GenericRow(row: SearchResult)
    requires row.title == "Fan" && row.snippet == "" && row.link == "x.com"
    ensures DetectBrand(row) == Success(None)
  {
    NoSlash(row.link);
    LowerGenericText(row.title + " " + row.snippet);
    GenericEntries(0);
    NoneMatch(BrandVariants, 0, "fan ", "");
    assert BrandVariants[0..] == BrandVariants;
  }

  /** No brand of the table at an index in `[j, k)` has a term that can
      occur. */
  predicate MissingBetween(table: seq<BrandEntry>, j: nat, k: nat, text: string, host: string)
    requires k <= |table|
    decreases k - j
  {
    j >= k || (TermsAbsent(table[j].terms, text, host) && MissingBetween(table, j + 1, k, text, host))
  }

  /** The search runs off the end of the table when nothing can occur. */
  lemma {:induction false} NoneMatch(table: seq<BrandEntry>, j: nat, text: string, host: string)
    requires j <= |table|
    requires MissingBetween(table, j, |table|, text, host)
    ensures DetectIn(table[j..], text, host) == None
    decreases |table| - j
  {
    if j < |table| {
      Unmatched(table[j], text, host);
      NoneMatch(table, j + 1, text, host);
      assert table[j..][0] == table[j];
      assert table[j..][1..] == table[j + 1..];
    }
  }

  /** The search stops at the first brand one of whose terms occurs. */
  lemma {:induction false} FirstMatch(table: seq<BrandEntry>, j: nat, k: nat, text: string, host: string)
    requires j <= k < |table|
    requires MissingBetween(table, j, k, text, host)
    requires AnyTerm(table[k].terms, text, host)
    ensures DetectIn(table[j..], text, host) == Some(table[k].brand)
    decreases k - j
  {
    assert table[j..][0] == table[j];
    if j < k {
      Unmatched(table[j], text, host);
      FirstMatch(table, j + 1, k, text, host);
      assert table[j..][1..] == table[j + 1..];
    }
  }

  /** Only `mi`, `okos` and `eglo` are short enough to fit in "fan ", and
      each starts with a letter it lacks. */
  lemma {:induction false} GenericEntries(k: nat)
    requires k <= 9
    ensures MissingBetween(BrandVariants, k, 9, "fan ", "")
    decreases 9 - k
  {
    if k < 9 {
      if k < 3 {
        GenericEntryLow(k);
      } else if k < 6 {
        GenericEntryMid(k);
      } else {
        GenericEntryHigh(k);
      }
      GenericEntries(k + 1);
    }
  }

  lemma GenericEntryLow(k: nat)
    requires k < 3
    ensures TermsAbsent(BrandVariants[k].terms, "fan ", "")
  {
  }

  lemma GenericEntryMid(k: nat)
    requires 3 <= k < 6
    ensures TermsAbsent(BrandVariants[k].terms, "fan ", "")
  {
  }

  lemma GenericEntryHigh(k: nat)
    requires 6 <= k < 9
    ensures TermsAbsent(BrandVariants[k].terms, "fan ", "")
  {
  }

  lemma LowerAtombergText(s: string)
    requires s == "Atomberg smart fan" + " " + ""
    ensures Lower(s) == "atomberg smart fan "
  {
  }

  lemma LowerOrientText(s: string)
    requires s == "Orient" + " " + ""
    ensures Lower(s) == "orient "
  {
  }

  lemma LowerGenericText(s: string)
    requires s == "Fan" + " " + ""
    ensures Lower(s) == "fan "
  {
  }

  /** Atomberg at position 1 and Orient at position 2 score 100 and 90;
      the unbranded row at position 11 is dropped; the table ranks Atomberg
      first. */
  lemma EndToEnd(rows: seq<SearchResult>)
    requires |rows| == 3
    requires rows[0].position == Some(1) && rows[0].title == "Atomberg smart fan"
             && rows[0].snippet == "" && rows[0].link == "atomberg.com"
    requires rows[1].position == Some(2) && rows[1].title == "Orient"
             && rows[1].snippet == "" && rows[1].link == "orientfan.com"
    requires rows[2].position == Some(11) && rows[2].title == "Fan"
             && rows[2].snippet == "" && rows[2].link == "x.com"
    ensures Classify(rows).Success?
    ensures BrandScores(Classify(rows).value) == [BrandScore("Atomberg", 100), BrandScore("Orient", 90)]
  {
    var items := [Classified(Some("Atomberg"), 100), Classified(Some("Orient"), 90), Classified(None, 5)];
    forall i | 0 <= i < 3
      ensures DetectBrand(rows[i]) == Success(items[i].brand)
      ensures PositionScore(rows[i].position) == items[i].score
    {
      if i == 0 {
        AtombergRow(rows[0]);
      } else if i == 1 {
        OrientRow(rows[1]);
      } else {
        GenericRow(rows[2]);
      }
    }
    ClassifyEach(rows, items);
    TwoBrandTable(items);
  }

  /** The classified column, given each row's brand and score. */
  lemma ClassifyEach(rows: seq<SearchResult>, items: seq<Classified>)
    requires |rows| == |items|
    requires forall i :: 0 <= i < |rows| ==> DetectBrand(rows[i]) == Success(items[i].brand)
    requires forall i :: 0 <= i < |rows| ==> PositionScore(rows[i].position) == items[i].score
    ensures Classify(rows) == Success(items)
  {
    var r := Classify(rows);
    assert r.value == items;
  }

  lemma TwoBrandTable(items: seq<Classified>)
    requires items == [Classified(Some("Atomberg"), 100), Classified(Some("Orient"), 90), Classified(None, 5)]
    ensures BrandScores(items) == [BrandScore("Atomberg", 100), BrandScore("Orient", 90)]
  {
    var x := BrandScore("Atomberg", 100);
    var y := BrandScore("Orient", 90);
    MatchedOfItems(items);
    var groups := GroupBy(Matched(items));
    GroupsOfPairs(Matched(items));
    TotalsOfGroups(groups);
    RankedFromMultiset(BrandScores(items), x, y);
  }

  lemma MatchedOfItems(items: seq<Classified>)
    requires items == [Classified(Some("Atomberg"), 100), Classified(Some("Orient"), 90), Classified(None, 5)]
    ensures Matched(items) == [("Atomberg", 100), ("Orient", 90)]
  {
    var two := items[..2];
    var one := items[..1];
    assert items[..|items| - 1] == two && items[|items| - 1].brand.None?;
    assert two[..|two| - 1] == one && two[|two| - 1] == Classified(Some("Orient"), 90);
    assert one[..|one| - 1] == [] && one[|one| - 1] == Classified(Some("Atomberg"), 100);
    assert Matched(one) == [("Atomberg", 100)];
    assert Matched(two) == [("Atomberg", 100), ("Orient", 90)];
  }

  lemma GroupsOfPairs(pairs: seq<(string, int)>)
    requires pairs == [("Atomberg", 100), ("Orient", 90)]
    ensures GroupBy(pairs) == [Bucket("Atomberg", [100]), Bucket("Orient", [90])]
  {
    var one := pairs[..1];
    assert one[..0] == [];
    var g1 := GroupBy(one);
    assert g1 == Place([], "Atomberg", 100);
    assert g1 == [Bucket("Atomberg", [100])];
    assert !InBuckets(g1, "Orient");
    var g2 := Place(g1, "Orient", 90);
    assert g2 == [Bucket("Atomberg", [100]), Bucket("Orient", [90])];
  }

  lemma TotalsOfGroups(groups: seq<Bucket<string, int>>)
    requires groups == [Bucket("Atomberg", [100]), Bucket("Orient", [90])]
    ensures Totals(groups) == [BrandScore("Atomberg", 100), BrandScore("Orient", 90)]
  {
    assert [100][..0] == [] && [90][..0] == [];
  }

  /** A ranked reordering of two lines with different totals is unique. */
  lemma RankedFromMultiset(r: seq<BrandScore>, x: BrandScore, y: BrandScore)
    requires x.total > y.total
    requires NonIncreasing(r) && multiset(r) == multiset([x, y])
    ensures r == [x, y]
  {
    assert |r| == |multiset(r)| == 2;
    assert r[0] in multiset(r) && r[1] in multiset(r);
    assert r == [r[0], r[1]];
  }

  // ---------------------------------------------------------------------
  // Terms match inside words
  // ---------------------------------------------------------------------

  /** Terms are matched as substrings, not as words: the two-letter term
      `mi` is found inside "mix", so a row about a mixer with no brand at
      all is counted for Mi. */
  lemma MixIsMi(row: SearchResult)
    requires row.title == "Mix" && row.snippet == "" && row.link == ""
    ensures DetectBrand(row) == Success(Some("Mi"))
  {
    NetlocWithoutSlash(row.link);
    LowerMixText(row.title + " " + row.snippet);
    MixEntries(0);
    MiInMix();
    FirstMatch(BrandVariants, 0, 6, "mix ", "");
    assert BrandVariants[0..] == BrandVariants;
  }

  lemma LowerMixText(s: string)
    requires s == "Mix" + " " + ""
    ensures Lower(s) == "mix "
  {
  }

  lemma MiInMix()
    ensures AnyTerm(BrandVariants[6].terms, "mix ", "")
  {
    assert BrandVariants[6].terms[2] == "mi";
    assert OccursAt("mi", "mix ", 0);
    assert Occurs(BrandVariants[6].terms[2], "mix ");
    AnyTermIffMatches(BrandVariants[6], "mix ", "");
  }

  /** Every term of the six brands before Mi is longer than "mix ". */
  lemma {:induction false} MixEntries(k: nat)
    requires k <= 6
    ensures MissingBetween(BrandVariants, k, 6, "mix ", "")
    decreases 6 - k
  {
    if k < 6 {
      if k < 3 {
        MixEntryLow(k);
      } else {
        MixEntryHigh(k);
      }
      MixEntries(k + 1);
    }
  }

  lemma MixEntryLow(k: nat)
    requires k < 3
    ensures TermsAbsent(BrandVariants[k].terms, "mix ", "")
  {
  }

  lemma MixEntryHigh(k: nat)
    requires 3 <= k < 6
    ensures TermsAbsent(BrandVariants[k].terms, "mix ", "")
  {
  }

  // ---------------------------------------------------------------------
  // Engagement
  // ---------------------------------------------------------------------

  /** 1000 views, 50 likes and 10 comments give a rate of 6 per cent. */
  lemma SixPerCent()
    ensures EngagementRate(1000, 50, 10) == 6.0
  {
  }

  /** A video nobody viewed has rate 0, whatever its likes and comments. */
  lemma ZeroViews(likes: nat, comments: nat)
    ensures EngagementRate(0, likes, comments) == 0.0
  {
  }

  /** A video without a `statistics` object aborts the query. */
  lemma MissingStatistics(title: string)
    ensures GetVideoStats([Video(Some(Snippet(Some(title))), None)], "Atomberg smart fan")
            == Failure(KeyError("statistics"))
  {
  }

  /** Missing counts read as 0. */
  lemma MissingCounts()
    ensures GetVideoStats([Video(Some(Snippet(None)), Some(Statistics(Some(200), None, Some(2))))], "q")
            == Success([StatsRecord("q", "", 200, 0, 2, 1.0)])
  {
    var v := Video(Some(Snippet(None)), Some(Statistics(Some(200), None, Some(2))));
    assert EngagementRate(200, 0, 2) == 1.0;
    assert VideoRecord(v, "q") == Success(StatsRecord("q", "", 200, 0, 2, 1.0));
    var r := GetVideoStats([v], "q");
    assert r.Success? && |r.value| == 1 && r.value[0] == StatsRecord("q", "", 200, 0, 2, 1.0);
    assert r.value == [StatsRecord("q", "", 200, 0, 2, 1.0)];
  }
}
