/**
  JavaScript's `String.prototype.trim`, which the dashboard uses for the
  blank-draft guard and the saved record.
 */
module JsText {

  /** The code points ECMAScript's WhiteSpace and LineTerminator productions
      accept, i.e. those `trim` removes: TAB, VT, FF, ZWNBSP, the Unicode space
      separators (category Zs: U+0020, U+00A0, U+1680, U+2000 to U+200A,
      U+202F, U+205F, U+3000) and the line terminators LF, CR, LS, PS. */
  const Whitespace: set<char> := {
    '\t', '\U{000B}', '\U{000C}', '\U{FEFF}',
    ' ', '\U{00A0}', '\U{1680}',
    '\U{2000}', '\U{2001}', '\U{2002}', '\U{2003}', '\U{2004}', '\U{2005}',
    '\U{2006}', '\U{2007}', '\U{2008}', '\U{2009}', '\U{200A}',
    '\U{202F}', '\U{205F}', '\U{3000}',
    '\n', '\r', '\U{2028}', '\U{2029}'
  }

  /** A character `trim` removes. */
  predicate IsWhitespace(c: char) {
    c in Whitespace
  }

  /** Every character of `s` is whitespace (the empty string included). */
  predicate Blank(s: string) {
    forall i | 0 <= i < |s| :: IsWhitespace(s[i])
  }

  /** `s` with its leading whitespace removed: a suffix of `s`, everything
      dropped is whitespace, and what is left does not start with whitespace. */
  function TrimStart(s: string): (r: string)
    ensures |r| <= |s| && r == s[|s| - |r|..]
    ensures forall i :: 0 <= i < |s| - |r| ==> IsWhitespace(s[i])
    ensures r == [] || !IsWhitespace(r[0])
  {
    if s != [] && IsWhitespace(s[0]) then TrimStart(s[1..]) else s
  }

  /** `s` with its trailing whitespace removed: a prefix of `s`, everything
      dropped is whitespace, and what is left does not end with whitespace. */
  function TrimEnd(s: string): (r: string)
    ensures |r| <= |s| && r == s[..|r|]
    ensures forall i :: |r| <= i < |s| ==> IsWhitespace(s[i])
    ensures r == [] || !IsWhitespace(r[|r| - 1])
  {
    if s != [] && IsWhitespace(s[|s| - 1]) then TrimEnd(s[..|s| - 1]) else s
  }

  /** JavaScript's `s.trim()`. The result is empty exactly when `s` is blank,
      and a non-empty result neither starts nor ends with whitespace. */
  function Trim(s: string): (r: string)
    ensures |r| <= |s|
    ensures r == [] <==> Blank(s)
    ensures r != [] ==> !IsWhitespace(r[0]) && !IsWhitespace(r[|r| - 1])
  {
    var t := TrimStart(s);
    var r := TrimEnd(t);
    assert r != [] ==> r[0] == t[0];
    r
  }

  /** Where the trimmed text sits in `s`: `Trim(s)` is the slice `s[lo..hi]`,
      with only whitespace before `lo` and from `hi` on. */
  lemma TrimSlice(s: string) returns (lo: nat, hi: nat)
    ensures lo <= hi <= |s|
    ensures s[lo..hi] == Trim(s)
    ensures forall i :: 0 <= i < lo ==> IsWhitespace(s[i])
    ensures forall i :: hi <= i < |s| ==> IsWhitespace(s[i])
  {
    var t := TrimStart(s);
    lo := |s| - |t|;
    hi := lo + |TrimEnd(t)|;
    assert forall i :: hi <= i < |s| ==> s[i] == t[i - lo];
  }

  /** If `s` is whitespace outside `[lo, hi)` and the slice `s[lo..hi]` neither
      starts nor ends with whitespace, that slice is `Trim(s)`: the trimmed
      text is the only slice with these properties. */
  lemma TrimAt(s: string, lo: nat, hi: nat)
    requires lo <= hi <= |s|
    requires forall i :: 0 <= i < lo ==> IsWhitespace(s[i])
    requires forall i :: hi <= i < |s| ==> IsWhitespace(s[i])
    requires lo < hi ==> !IsWhitespace(s[lo]) && !IsWhitespace(s[hi - 1])
    ensures Trim(s) == s[lo..hi]
  {
    var lo0, hi0 := TrimSlice(s);
    var t := Trim(s);
    if lo < hi {
      assert !IsWhitespace(s[lo]);
      assert t != [];
      assert s[lo0] == t[0] && s[hi0 - 1] == t[|t| - 1];
      assert lo == lo0 && hi == hi0;
    } else {
      assert forall i :: 0 <= i < |s| ==> IsWhitespace(s[i]);
      assert t == [];
    }
  }

  /** `trim` the way engines implement it, scanning inwards from both ends
      for the first and last non-whitespace character: the bounds it finds
      cut out exactly `Trim(s)`. */
  method TrimBounds(s: string) returns (lo: nat, hi: nat)
    ensures lo <= hi <= |s| && s[lo..hi] == Trim(s)
  {
    lo := 0;
    while lo < |s| && IsWhitespace(s[lo])
      invariant lo <= |s|
      invariant forall i :: 0 <= i < lo ==> IsWhitespace(s[i])
    {
      lo := lo + 1;
    }
    hi := |s|;
    while hi > lo && IsWhitespace(s[hi - 1])
      invariant lo <= hi <= |s|
      invariant forall i :: hi <= i < |s| ==> IsWhitespace(s[i])
    {
      hi := hi - 1;
    }
    TrimAt(s, lo, hi);
  }

  /** Trimming twice is the same as trimming once. */
  lemma {:induction false} TrimIdempotent(s: string)
    ensures Trim(Trim(s)) == Trim(s)
  {
    var t := Trim(s);
    TrimAt(t, 0, |t|);
    assert t[0..|t|] == t;
  }
}
