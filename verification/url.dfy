/** The part of Python's `urllib.parse.urlparse` that yields `netloc`: the
    input clean-up, the optional scheme prefix, the `//` authority marker and
    the bracket check that raises `ValueError("Invalid IPv6 URL")`. */
module Url {
  import opened Wrappers
  import opened Text

  datatype UrlError = InvalidIPv6Url

  /** Leading characters `urlsplit` strips: C0 controls and space. */
  predicate IsC0OrSpace(c: char) {
    c as int <= 0x20
  }

  /** Characters `urlsplit` deletes wherever they occur. */
  predicate IsUnsafe(c: char) {
    c == '\t' || c == '\r' || c == '\n'
  }

  /** Characters that end the network location. */
  predicate IsNetlocDelim(c: char) {
    c == '/' || c == '?' || c == '#'
  }

  predicate IsAsciiAlpha(c: char) {
    'A' <= c <= 'Z' || 'a' <= c <= 'z'
  }

  /** ASCII letters, digits, `+`, `-` and `.`. */
  predicate IsSchemeChar(c: char) {
    IsAsciiAlpha(c) || '0' <= c <= '9' || c == '+' || c == '-' || c == '.'
  }

  function StripC0(s: string): (r: string)
    ensures |r| <= |s| && r == s[|s| - |r|..]
    ensures |r| > 0 ==> !IsC0OrSpace(r[0])
    ensures forall k :: 0 <= k < |s| - |r| ==> IsC0OrSpace(s[k])
  {
    if |s| > 0 && IsC0OrSpace(s[0]) then StripC0(s[1..]) else s
  }

  function RemoveUnsafe(s: string): (r: string)
    ensures |r| <= |s|
    ensures forall k :: 0 <= k < |r| ==> !IsUnsafe(r[k])
    ensures (forall k :: 0 <= k < |s| ==> !IsUnsafe(s[k])) ==> r == s
  {
    if |s| == 0 then [] else (if IsUnsafe(s[0]) then [] else [s[0]]) + RemoveUnsafe(s[1..])
  }

  /** The string `urlsplit` actually parses. */
  function Sanitize(link: string): string {
    RemoveUnsafe(StripC0(link))
  }

  /** `s.find(c)`, with `|s|` standing for "not found". */
  function IndexOf(s: string, c: char): (i: nat)
    ensures i <= |s|
    ensures i < |s| ==> s[i] == c
    ensures forall k :: 0 <= k < i ==> s[k] != c
  {
    if |s| == 0 then 0 else if s[0] == c then 0 else 1 + IndexOf(s[1..], c)
  }

  /** The first network-location delimiter at or after `from`, or `|s|`:
      the minimum over the three `url.find(c, from)` calls of `_splitnetloc`. */
  function DelimIndex(s: string, from: nat): (i: nat)
    requires from <= |s|
    ensures from <= i <= |s|
    ensures i < |s| ==> IsNetlocDelim(s[i])
    ensures forall k :: from <= k < i ==> !IsNetlocDelim(s[k])
    decreases |s| - from
  {
    if from == |s| then from
    else if IsNetlocDelim(s[from]) then from
    else DelimIndex(s, from + 1)
  }

  predicate AllSchemeChars(s: string) {
    forall k :: 0 <= k < |s| ==> IsSchemeChar(s[k])
  }

  /** A scheme prefix `scheme:` is recognised when the first `:` is not at
      the start, the first character is an ASCII letter and every character
      before the `:` is a scheme character. */
  predicate HasScheme(url: string) {
    var i := IndexOf(url, ':');
    0 < i < |url| && IsAsciiAlpha(url[0]) && AllSchemeChars(url[..i])
  }

  /** What is left of the URL once its scheme prefix (if any) is removed. */
  function AfterScheme(url: string): (rest: string)
    ensures |rest| <= |url| && rest == url[|url| - |rest|..]
  {
    if HasScheme(url) then url[IndexOf(url, ':') + 1..] else url
  }

  /** The URL (scheme already removed) starts with the `//` marker. */
  predicate HasAuthority(url: string) {
    |url| >= 2 && url[0] == '/' && url[1] == '/'
  }

  /** The text after `//` up to the first delimiter. */
  function Authority(url: string): string
    requires HasAuthority(url)
  {
    url[2..DelimIndex(url, 2)]
  }

  /** `urlsplit` raises when exactly one of the brackets is present. */
  predicate BracketsMismatched(n: string) {
    ('[' in n) != (']' in n)
  }

  /** `urlparse(link).netloc`: after the scheme, a leading `//` introduces
      the network location, which runs to the first `/`, `?` or `#`. With no
      `//` there the network location is empty. A network location holding
      only one of `[` and `]` raises. */
  function Netloc(link: string): (r: Result<string, UrlError>)
    ensures r.Success? ==> forall k :: 0 <= k < |r.value| ==> !IsNetlocDelim(r.value[k])
    ensures r.Success? ==> ('[' in r.value <==> ']' in r.value)
    ensures r.Failure? || |r.value| > 0 ==> HasAuthority(AfterScheme(Sanitize(link)))
  {
    var url := AfterScheme(Sanitize(link));
    if !HasAuthority(url) then Success("")
    else if BracketsMismatched(Authority(url)) then Failure(InvalidIPv6Url)
    else Success(Authority(url))
  }

  // ---------------------------------------------------------------------
  // What the network location is
  // ---------------------------------------------------------------------

  /** A network location is a delimiter-free stretch of the cleaned link. */
  lemma NetlocIsSlice(link: string)
    requires Netloc(link).Success?
    ensures Occurs(Netloc(link).value, Sanitize(link))
    ensures forall k :: 0 <= k < |Netloc(link).value| ==> !IsNetlocDelim(Netloc(link).value[k])
  {
    var clean := Sanitize(link);
    var url := AfterScheme(clean);
    if HasAuthority(url) {
      AuthorityIsSlice(clean, url);
    } else {
      assert OccursAt("", clean, 0);
    }
  }

  lemma AuthorityIsSlice(clean: string, url: string)
    requires |url| <= |clean| && url == clean[|clean| - |url|..]
    requires HasAuthority(url)
    ensures Occurs(Authority(url), clean)
  {
    var e := DelimIndex(url, 2);
    var off := |clean| - |url|;
    assert clean[off + 2..off + e] == url[2..e];
    assert OccursAt(url[2..e], clean, off + 2);
  }

  /** The scheme prefix of `scheme://rest` is recognised and removed. */
  lemma {:induction false} AfterSchemeOf(scheme: string, rest: string)
    requires |scheme| > 0 && IsAsciiAlpha(scheme[0]) && AllSchemeChars(scheme)
    ensures AfterScheme(scheme + ":" + rest) == rest
  {
    var url := scheme + ":" + rest;
    var i := IndexOf(url, ':');
    assert url[|scheme|] == ':';
    assert i == |scheme|;
    assert url[..i] == scheme;
    assert url[0] == scheme[0];
    assert url[i + 1..] == rest;
  }

  /** The authority of `//host` followed by a delimiter (or nothing) is
      `host`. */
  lemma {:induction false} AuthorityOf(host: string, tail: string)
    requires forall k :: 0 <= k < |host| ==> !IsNetlocDelim(host[k])
    requires |tail| == 0 || IsNetlocDelim(tail[0])
    ensures HasAuthority("//" + host + tail)
    ensures Authority("//" + host + tail) == host
  {
    var url := "//" + host + tail;
    assert forall k :: 2 <= k < 2 + |host| ==> url[k] == host[k - 2];
    assert |tail| > 0 ==> url[2 + |host|] == tail[0];
    var e := DelimIndex(url, 2);
    assert e == 2 + |host|;
    assert url[2..e] == host;
  }

  /** A link written `scheme://host` followed by nothing or by a path, query
      or fragment yields exactly `host`; a port or user-info part stays
      inside it. */
  lemma {:induction false} NetlocOfAuthority(scheme: string, host: string, tail: string)
    requires |scheme| > 0 && IsAsciiAlpha(scheme[0]) && AllSchemeChars(scheme)
    requires forall k :: 0 <= k < |host| ==> !IsNetlocDelim(host[k]) && !IsUnsafe(host[k])
    requires '[' !in host && ']' !in host
    requires |tail| == 0 || IsNetlocDelim(tail[0])
    requires forall k :: 0 <= k < |tail| ==> !IsUnsafe(tail[k])
    ensures Netloc(scheme + "://" + host + tail) == Success(host)
  {
    var link := scheme + "://" + host + tail;
    var rest := "//" + host + tail;
    LinkParts(scheme, host, tail);
    SafeConcat("//", host);
    SafeConcat("//" + host, tail);
    SanitizeSchemeLink(scheme, rest);
    AfterSchemeOf(scheme, rest);
    AuthorityOf(host, tail);
    NetlocFromParts(link, rest, host);
  }

  lemma LinkParts(scheme: string, host: string, tail: string)
    ensures scheme + "://" + host + tail == scheme + ":" + ("//" + host + tail)
  {
  }

  lemma NetlocFromParts(link: string, url: string, host: string)
    requires Sanitize(link) == link && AfterScheme(link) == url
    requires HasAuthority(url) && Authority(url) == host
    requires '[' !in host && ']' !in host
    ensures Netloc(link) == Success(host)
  {
  }

  /** No character of `s` is one that `urlsplit` deletes. */
  predicate Safe(s: string) {
    forall k :: 0 <= k < |s| ==> !IsUnsafe(s[k])
  }

  lemma SafeConcat(a: string, b: string)
    requires Safe(a) && Safe(b)
    ensures Safe(a + b)
  {
    forall k | 0 <= k < |a + b| ensures !IsUnsafe((a + b)[k]) {
      if k >= |a| {
        assert (a + b)[k] == b[k - |a|];
      }
    }
  }

  /** A link that starts with a scheme and holds no deleted character is
      parsed as written. */
  lemma SanitizeSchemeLink(scheme: string, rest: string)
    requires |scheme| > 0 && IsAsciiAlpha(scheme[0]) && AllSchemeChars(scheme)
    requires Safe(rest)
    ensures Sanitize(scheme + ":" + rest) == scheme + ":" + rest
  {
    var link := scheme + ":" + rest;
    assert link[0] == scheme[0];
    assert StripC0(link) == link;
    assert Safe(scheme + ":");
    SafeConcat(scheme + ":", rest);
  }

  /** Without any `/` there is no authority marker and the network location
      is empty. */
  lemma {:induction false} NetlocWithoutSlash(link: string)
    requires forall k :: 0 <= k < |link| ==> link[k] != '/'
    ensures Netloc(link) == Success("")
  {
    var clean := Sanitize(link);
    NoSlashStripC0(link);
    NoSlashRemoveUnsafe(StripC0(link));
    var url := AfterScheme(clean);
    assert |url| > 0 ==> url[0] == clean[|clean| - |url|];
  }

  lemma {:induction false} NoSlashStripC0(s: string)
    requires forall k :: 0 <= k < |s| ==> s[k] != '/'
    ensures forall k :: 0 <= k < |StripC0(s)| ==> StripC0(s)[k] != '/'
  {
    var r := StripC0(s);
    forall k | 0 <= k < |r| ensures r[k] != '/' {
      assert r[k] == s[|s| - |r| + k];
    }
  }

  lemma {:induction false} NoSlashRemoveUnsafe(s: string)
    requires forall k :: 0 <= k < |s| ==> s[k] != '/'
    ensures forall k :: 0 <= k < |RemoveUnsafe(s)| ==> RemoveUnsafe(s)[k] != '/'
    decreases |s|
  {
    if |s| > 0 {
      NoSlashRemoveUnsafe(s[1..]);
    }
  }

  // ---------------------------------------------------------------------
  // Case does not matter to the shape of a link
  // ---------------------------------------------------------------------

  /** Two case-equal strings agree on every character that is not a letter,
      and agree on which characters are letters. */
  lemma CaseEqAt(a: string, b: string, i: nat)
    requires CaseEq(a, b) && i < |a|
    ensures |b| == |a|
    ensures IsAsciiAlpha(a[i]) <==> IsAsciiAlpha(b[i])
    ensures !IsAsciiAlpha(a[i]) ==> a[i] == b[i]
  {
    CaseEqChar(a, b, i);
  }

  lemma {:induction false} StripC0CaseEq(a: string, b: string)
    requires CaseEq(a, b)
    ensures CaseEq(StripC0(a), StripC0(b))
    decreases |a|
  {
    if |a| > 0 {
      CaseEqAt(a, b, 0);
      if IsC0OrSpace(a[0]) {
        CaseEqSlice(a, b, 1, |a|);
        StripC0CaseEq(a[1..], b[1..]);
      }
    } else {
      assert |b| == |Lower(b)| == |Lower(a)|;
    }
  }

  lemma RemoveUnsafeCaseEq(a: string, b: string)
    requires CaseEq(a, b)
    ensures CaseEq(RemoveUnsafe(a), RemoveUnsafe(b))
  {
    LowerRemoveUnsafe(a);
    LowerRemoveUnsafe(b);
  }

  /** Lower-casing and deleting tabs and line breaks commute. */
  lemma {:induction false} LowerRemoveUnsafe(s: string)
    ensures Lower(RemoveUnsafe(s)) == RemoveUnsafe(Lower(s))
    decreases |s|
  {
    if |s| > 0 {
      var keep := if IsUnsafe(s[0]) then [] else [s[0]];
      LowerRemoveUnsafe(s[1..]);
      LowerConcat(keep, RemoveUnsafe(s[1..]));
      assert Lower(s)[1..] == Lower(s[1..]);
    }
  }

  lemma {:induction false} IndexOfCaseEq(a: string, b: string, c: char)
    requires CaseEq(a, b) && !IsAsciiAlpha(c)
    ensures IndexOf(a, c) == IndexOf(b, c)
    decreases |a|
  {
    assert |b| == |Lower(b)| == |Lower(a)|;
    if |a| > 0 {
      CaseEqAt(a, b, 0);
      CaseEqSlice(a, b, 1, |a|);
      IndexOfCaseEq(a[1..], b[1..], c);
    }
  }

  lemma DelimIndexCaseEq(a: string, b: string, from: nat)
    requires CaseEq(a, b) && from <= |a|
    ensures |b| == |a| && DelimIndex(a, from) == DelimIndex(b, from)
  {
    assert |b| == |Lower(b)| == |Lower(a)|;
    forall k | from <= k < |a| ensures IsNetlocDelim(a[k]) <==> IsNetlocDelim(b[k]) {
      CaseEqAt(a, b, k);
    }
  }

  lemma AllSchemeCharsCaseEq(a: string, b: string)
    requires CaseEq(a, b)
    ensures AllSchemeChars(a) <==> AllSchemeChars(b)
  {
    forall k | 0 <= k < |a|
      ensures IsSchemeChar(a[k]) <==> IsSchemeChar(b[k])
    {
      CaseEqAt(a, b, k);
    }
  }

  lemma {:induction false} HasSchemeCaseEq(a: string, b: string)
    requires CaseEq(a, b)
    ensures HasScheme(a) <==> HasScheme(b)
    ensures IndexOf(a, ':') == IndexOf(b, ':')
  {
    assert |b| == |Lower(b)| == |Lower(a)|;
    IndexOfCaseEq(a, b, ':');
    var i := IndexOf(a, ':');
    if 0 < i < |a| {
      CaseEqAt(a, b, 0);
      CaseEqSlice(a, b, 0, i);
      AllSchemeCharsCaseEq(a[..i], b[..i]);
    }
  }

  lemma {:induction false} AfterSchemeCaseEq(a: string, b: string)
    requires CaseEq(a, b)
    ensures |AfterScheme(a)| == |AfterScheme(b)|
    ensures CaseEq(AfterScheme(a), AfterScheme(b))
  {
    assert |b| == |Lower(b)| == |Lower(a)|;
    HasSchemeCaseEq(a, b);
    if HasScheme(a) {
      CaseEqSlice(a, b, IndexOf(a, ':') + 1, |a|);
    }
  }

  /** Changing the case of letters anywhere in a link neither makes nor
      breaks the parse, and changes the network location only in case. */
  lemma {:induction false} NetlocCaseEq(a: string, b: string)
    requires CaseEq(a, b)
    ensures Netloc(a).Success? <==> Netloc(b).Success?
    ensures Netloc(a).Success? ==> CaseEq(Netloc(a).value, Netloc(b).value)
  {
    StripC0CaseEq(a, b);
    RemoveUnsafeCaseEq(StripC0(a), StripC0(b));
    var ua := AfterScheme(Sanitize(a));
    var ub := AfterScheme(Sanitize(b));
    AfterSchemeCaseEq(Sanitize(a), Sanitize(b));
    if |ua| >= 2 {
      CaseEqAt(ua, ub, 0);
      CaseEqAt(ua, ub, 1);
    }
    if HasAuthority(ua) {
      AuthorityCaseEq(ua, ub);
    }
  }

  lemma {:induction false} AuthorityCaseEq(ua: string, ub: string)
    requires CaseEq(ua, ub) && HasAuthority(ua) && HasAuthority(ub)
    ensures CaseEq(Authority(ua), Authority(ub))
    ensures BracketsMismatched(Authority(ua)) <==> BracketsMismatched(Authority(ub))
  {
    DelimIndexCaseEq(ua, ub, 2);
    var e := DelimIndex(ua, 2);
    CaseEqSlice(ua, ub, 2, e);
    var na, nb := ua[2..e], ub[2..e];
    forall k | 0 <= k < |na|
      ensures (na[k] == '[' <==> nb[k] == '[') && (na[k] == ']' <==> nb[k] == ']')
    {
      CaseEqAt(na, nb, k);
    }
    assert ('[' in na) <==> ('[' in nb);
    assert (']' in na) <==> (']' in nb);
  }

}
