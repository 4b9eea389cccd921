/** The two Python string operations the request handlers rely on: `str.strip()`
    with no argument and `str.lower()`, restricted to ASCII behaviour. */
module Strings {

  /** `str.isspace()` on a code point below 128: tab, line feed, vertical tab,
      form feed, carriage return, the four separators 0x1C-0x1F and space. */
  predicate IsSpace(c: char) {
    9 <= c as int <= 13 || 28 <= c as int <= 32
  }

  /** Every character of `s` from index `from` up to `to` is whitespace. */
  predicate SpaceBetween(s: string, from: int, to: int) {
    forall i | from <= i < to && 0 <= i < |s| :: IsSpace(s[i])
  }

  predicate AllSpace(s: string) {
    SpaceBetween(s, 0, |s|)
  }

  /** Drops the leading whitespace of `s` (`str.lstrip()`). */
  function TrimStart(s: string): (r: string)
    ensures |r| <= |s| && r == s[|s| - |r|..]
    ensures SpaceBetween(s, 0, |s| - |r|)
    ensures r == [] || !IsSpace(r[0])
  {
    if s != [] && IsSpace(s[0]) then TrimStart(s[1..]) else s
  }

  /** Drops the trailing whitespace of `s` (`str.rstrip()`). */
  function TrimEnd(s: string): (r: string)
    ensures |r| <= |s| && r == s[..|r|]
    ensures SpaceBetween(s, |r|, |s|)
    ensures r == [] || !IsSpace(r[|r| - 1])
  {
    if s != [] && IsSpace(s[|s| - 1]) then TrimEnd(s[..|s| - 1]) else s
  }

  /** `r` sits in `s` at offset `lo`, and everything of `s` around it is whitespace. */
  ghost predicate StrippedAt(s: string, r: string, lo: int) {
    && 0 <= lo && lo + |r| <= |s|
    && s[lo..lo + |r|] == r
    && SpaceBetween(s, 0, lo)
    && SpaceBetween(s, lo + |r|, |s|)
  }

  /** `r` neither begins nor ends with whitespace. */
  predicate Tight(r: string) {
    r == [] || (!IsSpace(r[0]) && !IsSpace(r[|r| - 1]))
  }

  /** `str.strip()`: whitespace removed at both ends. */
  function Strip(s: string): (r: string)
    ensures Tight(r)
    ensures r == [] <==> AllSpace(s)
  {
    var t := TrimStart(s);
    var r := TrimEnd(t);
    assert r == [] ==> t == [];
    r
  }

  /** A suffix of `s` behind whitespace, cut back to a prefix before whitespace, is an
      infix of `s` with whitespace around it. */
  lemma TrimmedIsInfix(s: string, t: string, r: string)
    requires |t| <= |s| && t == s[|s| - |t|..] && SpaceBetween(s, 0, |s| - |t|)
    requires |r| <= |t| && r == t[..|r|] && SpaceBetween(t, |r|, |t|)
    ensures StrippedAt(s, r, |s| - |t|)
  {
    var lo := |s| - |t|;
    assert forall j | 0 <= j < |r| :: r[j] == s[lo + j];
    assert s[lo..lo + |r|] == r;
    forall i | lo + |r| <= i < |s| ensures IsSpace(s[i]) {
      assert IsSpace(t[i - lo]);
    }
  }

  /** What `Strip` leaves is the infix of `s` between leading and trailing whitespace. */
  lemma StripIsInfix(s: string) returns (lo: int)
    ensures StrippedAt(s, Strip(s), lo)
  {
    var t := TrimStart(s);
    TrimmedIsInfix(s, t, TrimEnd(t));
    lo := |s| - |t|;
  }

  /** The character at `i` of `s` is a character of `r`, or whitespace. */
  lemma SpaceAround(s: string, r: string, lo: int, i: int)
    requires StrippedAt(s, r, lo) && 0 <= i < |s|
    ensures i < lo || lo + |r| <= i ==> IsSpace(s[i])
    ensures lo <= i < lo + |r| ==> s[i] == r[i - lo]
  {
    if lo <= i < lo + |r| {
      assert s[lo..lo + |r|][i - lo] == s[i];
    }
  }

  /** Two stripped infixes that begin with non-whitespace begin at the same offset. */
  lemma SameStart(s: string, r: string, lo: int, r': string, lo': int)
    requires StrippedAt(s, r, lo) && StrippedAt(s, r', lo')
    requires r != [] && r' != [] && !IsSpace(r[0]) && !IsSpace(r'[0])
    ensures lo == lo'
  {
    SpaceAround(s, r, lo, lo);
    SpaceAround(s, r', lo', lo');
  }

  /** Two stripped infixes that end with non-whitespace end at the same offset. */
  lemma SameEnd(s: string, r: string, lo: int, r': string, lo': int)
    requires StrippedAt(s, r, lo) && StrippedAt(s, r', lo')
    requires r != [] && r' != [] && !IsSpace(r[|r| - 1]) && !IsSpace(r'[|r'| - 1])
    ensures lo + |r| == lo' + |r'|
  {
    SpaceAround(s, r, lo, lo + |r| - 1);
    SpaceAround(s, r', lo', lo' + |r'| - 1);
  }

  /** At most one tight infix of `s` has only whitespace around it. */
  lemma {:induction false} TightInfixUnique(s: string, r: string, lo: int, r': string, lo': int)
    requires StrippedAt(s, r, lo) && Tight(r)
    requires StrippedAt(s, r', lo') && Tight(r')
    ensures r == r'
  {
    if r != [] && r' == [] {
      SpaceAround(s, r, lo, lo);
    } else if r == [] && r' != [] {
      SpaceAround(s, r', lo', lo');
    } else if r != [] {
      SameStart(s, r, lo, r', lo');
      SameEnd(s, r, lo, r', lo');
    }
  }

  /** Whatever removes only surrounding whitespace and leaves no whitespace at its
      ends is what `Strip` returns: the two characterisations agree. */
  lemma {:induction false} StripUnique(s: string, r: string, lo: int)
    requires StrippedAt(s, r, lo) && Tight(r)
    ensures r == Strip(s)
  {
    var lo' := StripIsInfix(s);
    TightInfixUnique(s, r, lo, Strip(s), lo');
  }

  /** Stripping twice is stripping once. */
  lemma StripIdempotent(s: string)
    ensures Strip(Strip(s)) == Strip(s)
  {
    var r := Strip(s);
    assert r[..|r|] == r;
    StripUnique(r, r, 0);
  }

  predicate IsUpper(c: char) {
    'A' <= c <= 'Z'
  }

  /** `str.lower()` on one character, ASCII letters only: an upper-case letter
      becomes its lower-case partner, 32 code points on; any other character stays. */
  function LowerChar(c: char): (d: char)
    ensures !IsUpper(d)
    ensures IsUpper(c) ==> 'a' <= d <= 'z' && d as int == c as int + 32
    ensures !IsUpper(c) ==> d == c
  {
    if IsUpper(c) then (c as int + 32) as char else c
  }

  /** `str.lower()`, ASCII letters only: same length, no upper-case letter left. */
  function Lower(s: string): (r: string)
    ensures |r| == |s|
    ensures forall i | 0 <= i < |r| :: !IsUpper(r[i])
  {
    seq(|s|, i requires 0 <= i < |s| => LowerChar(s[i]))
  }

  /** `s` spells `w` in some mix of ASCII cases: character by character, either the
      same, or the upper-case partner of a lower-case letter of `w`. */
  predicate CaseVariant(s: string, w: string) {
    && |s| == |w|
    && forall i | 0 <= i < |s| ::
         s[i] == w[i] || ('a' <= w[i] <= 'z' && s[i] as int == w[i] as int - 32)
  }

  /** Lower-casing gives a word without upper-case letters exactly when the input
      spells that word in some mix of cases. */
  lemma LowerIsCaseFold(s: string, w: string)
    requires forall i | 0 <= i < |w| :: !IsUpper(w[i])
    ensures Lower(s) == w <==> CaseVariant(s, w)
  {
    var r := Lower(s);
    assert forall i | 0 <= i < |s| :: r[i] == LowerChar(s[i]);
    if CaseVariant(s, w) {
      assert r == w;
    }
  }
}
