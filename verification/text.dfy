/** The string operations the scripts rely on: ASCII `str.lower`, the `in`
    substring test and `str.strip`. */
module Text {

  /** True for the letters `str.lower` changes in the ASCII range. */
  predicate IsAsciiUpper(c: char) {
    'A' <= c <= 'Z'
  }

  function LowerChar(c: char): char {
    if IsAsciiUpper(c) then (c as int + 32) as char else c
  }

  function UpperChar(c: char): char {
    if 'a' <= c <= 'z' then (c as int - 32) as char else c
  }

  /** `s.lower()` restricted to ASCII: every upper-case letter becomes its
      lower-case partner and every other character is kept. */
  function Lower(s: string): (r: string)
    ensures |r| == |s|
    ensures forall i :: 0 <= i < |s| ==> r[i] == LowerChar(s[i])
  {
    if |s| == 0 then [] else [LowerChar(s[0])] + Lower(s[1..])
  }

  /** `s.upper()` restricted to ASCII. */
  function Upper(s: string): (r: string)
    ensures |r| == |s|
    ensures forall i :: 0 <= i < |s| ==> r[i] == UpperChar(s[i])
  {
    if |s| == 0 then [] else [UpperChar(s[0])] + Upper(s[1..])
  }

  /** A string that `Lower` leaves unchanged. */
  predicate IsLowercase(s: string) {
    forall i :: 0 <= i < |s| ==> !IsAsciiUpper(s[i])
  }

  /** Two strings that differ at most in the case of ASCII letters. */
  predicate CaseEq(a: string, b: string) {
    Lower(a) == Lower(b)
  }

  lemma LowerIsLowercase(s: string)
    ensures IsLowercase(Lower(s))
    ensures Lower(Lower(s)) == Lower(s)
  {
  }

  lemma LowercaseIsFixed(s: string)
    requires IsLowercase(s)
    ensures Lower(s) == s
  {
  }

  /** Upper-casing never changes what lower-casing produces. */
  lemma UpperCaseEq(s: string)
    ensures CaseEq(Upper(s), s)
  {
    assert forall i :: 0 <= i < |s| ==> LowerChar(UpperChar(s[i])) == LowerChar(s[i]);
  }

  /** Lower-casing commutes with concatenation, so a lower-cased
      `title + " " + snippet` is the concatenation of the lower-cased parts. */
  lemma LowerConcat(a: string, b: string)
    ensures Lower(a + b) == Lower(a) + Lower(b)
  {
  }

  lemma CaseEqConcat(a: string, a': string, b: string, b': string)
    requires CaseEq(a, a') && CaseEq(b, b')
    ensures CaseEq(a + b, a' + b')
  {
    LowerConcat(a, b);
    LowerConcat(a', b');
  }

  lemma CaseEqSlice(a: string, b: string, lo: nat, hi: nat)
    requires CaseEq(a, b) && lo <= hi <= |a|
    ensures CaseEq(a[lo..hi], b[lo..hi])
  {
    assert |Lower(a)| == |a| && |Lower(b)| == |b|;
    forall i | 0 <= i < hi - lo
      ensures Lower(a[lo..hi])[i] == Lower(b[lo..hi])[i]
    {
      assert Lower(a)[lo + i] == Lower(b)[lo + i];
    }
  }

  /** `CaseEq` characters agree on everything that is not an ASCII letter. */
  lemma CaseEqChar(a: string, b: string, i: nat)
    requires CaseEq(a, b) && i < |a|
    ensures |b| == |a|
    ensures a[i] == b[i] || (LowerChar(a[i]) == LowerChar(b[i]) && ('A' <= a[i] <= 'Z' || 'a' <= a[i] <= 'z') && ('A' <= b[i] <= 'Z' || 'a' <= b[i] <= 'z'))
  {
    assert |Lower(a)| == |a| && |Lower(b)| == |b|;
    assert Lower(a)[i] == Lower(b)[i];
  }

  // ---------------------------------------------------------------------
  // Substrings: Python's `t in s`
  // ---------------------------------------------------------------------

  /** `t` starts at offset `i` of `s`. */
  predicate OccursAt(t: string, s: string, i: nat) {
    i + |t| <= |s| && s[i..i + |t|] == t
  }

  /** `t` occurs in `s` at some offset. */
  ghost predicate Occurs(t: string, s: string) {
    exists i: nat :: OccursAt(t, s, i)
  }

  /** The executable substring test `t in s`, scanning left to right. */
  predicate Contains(s: string, t: string)
    decreases |s|
  {
    |t| <= |s| && (s[..|t|] == t || (|s| > 0 && Contains(s[1..], t)))
  }

  /** The scan finds `t` exactly when `t` occurs somewhere in `s`. */
  lemma {:induction false} ContainsIffOccurs(s: string, t: string)
    ensures Contains(s, t) <==> Occurs(t, s)
    decreases |s|
  {
    if |t| <= |s| && s[..|t|] == t {
      assert OccursAt(t, s, 0);
    } else if |t| <= |s| && |s| > 0 {
      ContainsIffOccurs(s[1..], t);
      if Contains(s[1..], t) {
        var i: nat :| OccursAt(t, s[1..], i);
        assert s[1..][i..i + |t|] == s[i + 1..i + 1 + |t|];
        assert OccursAt(t, s, i + 1);
      }
      if Occurs(t, s) {
        var i: nat :| OccursAt(t, s, i);
        assert i != 0;
        assert s[1..][i - 1..i - 1 + |t|] == s[i..i + |t|];
        assert OccursAt(t, s[1..], i - 1);
      }
    }
  }

  /** Every string occurs in itself prefixed and suffixed by anything. */
  lemma OccursInContext(t: string, pre: string, post: string)
    ensures Occurs(t, pre + t + post)
  {
    assert (pre + t + post)[|pre|..|pre| + |t|] == t;
    assert OccursAt(t, pre + t + post, |pre|);
  }

  // ---------------------------------------------------------------------
  // Whitespace stripping: Python's `str.strip()`
  // ---------------------------------------------------------------------

  /** The characters for which Python's `str.isspace` holds. */
  predicate IsSpace(c: char) {
    var n := c as int;
    || 9 <= n <= 13 || 28 <= n <= 32 || n == 0x85 || n == 0xA0 || n == 0x1680
    || 0x2000 <= n <= 0x200A || n == 0x2028 || n == 0x2029 || n == 0x202F
    || n == 0x205F || n == 0x3000
  }

  function StripLeft(s: string): (r: string)
    ensures |r| <= |s| && r == s[|s| - |r|..]
    ensures |r| > 0 ==> !IsSpace(r[0])
    ensures forall k :: 0 <= k < |s| - |r| ==> IsSpace(s[k])
  {
    if |s| > 0 && IsSpace(s[0]) then StripLeft(s[1..]) else s
  }

  function StripRight(s: string): (r: string)
    ensures |r| <= |s| && r == s[..|r|]
    ensures |r| > 0 ==> !IsSpace(r[|r| - 1])
    ensures forall k :: |r| <= k < |s| ==> IsSpace(s[k])
  {
    if |s| > 0 && IsSpace(s[|s| - 1]) then StripRight(s[..|s| - 1]) else s
  }

  /** `s.strip()`: the longest middle slice of `s` that neither starts nor
      ends with whitespace, everything cut off being whitespace. */
  function Strip(s: string): (r: string)
    ensures exists lo, hi :: 0 <= lo <= hi <= |s| && r == s[lo..hi]
                             && (forall k :: 0 <= k < lo ==> IsSpace(s[k]))
                             && (forall k :: hi <= k < |s| ==> IsSpace(s[k]))
    ensures |r| > 0 ==> !IsSpace(r[0]) && !IsSpace(r[|r| - 1])
  {
    var left := StripLeft(s);
    var r := StripRight(left);
    StripWitness(s, left, r);
    r
  }

  lemma StripWitness(s: string, left: string, r: string)
    requires |left| <= |s| && left == s[|s| - |left|..]
    requires forall k :: 0 <= k < |s| - |left| ==> IsSpace(s[k])
    requires |r| <= |left| && r == left[..|r|]
    requires forall k :: |r| <= k < |left| ==> IsSpace(left[k])
    ensures exists lo, hi :: 0 <= lo <= hi <= |s| && r == s[lo..hi]
                             && (forall k :: 0 <= k < lo ==> IsSpace(s[k]))
                             && (forall k :: hi <= k < |s| ==> IsSpace(s[k]))
  {
    var lo := |s| - |left|;
    var hi := lo + |r|;
    assert r == s[lo..hi];
    forall k | hi <= k < |s| ensures IsSpace(s[k]) {
      assert s[k] == left[k - lo];
    }
    assert 0 <= lo <= hi <= |s| && r == s[lo..hi]
           && (forall k :: 0 <= k < lo ==> IsSpace(s[k]))
           && (forall k :: hi <= k < |s| ==> IsSpace(s[k]));
  }

  /** Stripping twice is stripping once. */
  lemma StripIdempotent(s: string)
    ensures Strip(Strip(s)) == Strip(s)
  {
    var r := Strip(s);
    if |r| > 0 {
      assert StripLeft(r) == r;
      assert StripRight(r) == r;
    }
  }
}
