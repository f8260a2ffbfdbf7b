/** Whitespace trimming as JavaScript's `String.prototype.trim` performs it:
    strip every leading and every trailing character that is ECMAScript
    WhiteSpace or LineTerminator. */
module Text {

  /** ECMAScript WhiteSpace (TAB, VT, FF, SP, NBSP, ZWNBSP and the Unicode
      space separators) and LineTerminator (LF, CR, LS, PS). */
  predicate IsWhitespace(c: char) {
    c == '\t' || c == '\n' || c == '\U{000B}' || c == '\U{000C}' || c == '\r'
    || c == ' ' || c == '\U{00A0}' || c == '\U{1680}'
    || ('\U{2000}' <= c <= '\U{200A}')
    || c == '\U{2028}' || c == '\U{2029}' || c == '\U{202F}' || c == '\U{205F}'
    || c == '\U{3000}' || c == '\U{FEFF}'
  }

  /** Every character of `s` from index `lo` up to `hi` is whitespace. */
  predicate WhitespaceBetween(s: string, lo: int, hi: int)
    requires 0 <= lo && hi <= |s|
  {
    forall i :: lo <= i < hi ==> IsWhitespace(s[i])
  }

  predicate AllWhitespace(s: string) {
    WhitespaceBetween(s, 0, |s|)
  }

  /** `s` without its leading whitespace: the longest suffix of `s` that does
      not start with whitespace, everything before it being whitespace. */
  function TrimStart(s: string): (r: string)
    ensures |r| <= |s| && r == s[|s| - |r|..]
    ensures WhitespaceBetween(s, 0, |s| - |r|)
    ensures r != [] ==> !IsWhitespace(r[0])
    decreases |s|
  {
    if s != [] && IsWhitespace(s[0]) then
      var r := TrimStart(s[1..]);
      assert s[1..][|s| - 1 - |r|..] == s[|s| - |r|..];
      assert forall i :: 1 <= i < |s| - |r| ==> s[i] == s[1..][i - 1];
      r
    else s
  }

  /** `s` without its trailing whitespace: the longest prefix of `s` that does
      not end with whitespace, everything after it being whitespace. */
  function TrimEnd(s: string): (r: string)
    ensures |r| <= |s| && r == s[..|r|]
    ensures WhitespaceBetween(s, |r|, |s|)
    ensures r != [] ==> !IsWhitespace(r[|r| - 1])
    decreases |s|
  {
    if s != [] && IsWhitespace(s[|s| - 1]) then
      var p := s[..|s| - 1];
      var r := TrimEnd(p);
      assert p[..|r|] == s[..|r|];
      assert forall i :: |r| <= i < |p| ==> s[i] == p[i];
      r
    else s
  }

  /** `String.prototype.trim`: whitespace removed from both ends. */
  function Trim(s: string): (r: string)
    ensures |r| <= |s|
    ensures r != [] ==> !IsWhitespace(r[0]) && !IsWhitespace(r[|r| - 1])
    ensures r == [] <==> AllWhitespace(s)
  {
    TrimEndOfTrimStart(s);
    TrimEnd(TrimStart(s))
  }

  /** Helper for Trim's contract: after the leading whitespace is gone,
      trailing trimming leaves nothing exactly when `s` was all whitespace. */
  lemma TrimEndOfTrimStart(s: string)
    ensures var t := TrimStart(s);
      (TrimEnd(t) != [] ==> TrimEnd(t)[0] == t[0]) &&
      (TrimEnd(t) == [] <==> AllWhitespace(s))
  {
    var t := TrimStart(s);
    var k := |s| - |t|;
    assert t != [] ==> t[0] == s[k];
    assert TrimEnd(t) == [] ==> t == [];
  }

  /** Trim keeps a contiguous piece `s[lo..hi]` of its input and drops only
      whitespace around it. */
  lemma TrimIsSlice(s: string) returns (lo: nat, hi: nat)
    ensures lo <= hi <= |s| && Trim(s) == s[lo..hi]
    ensures WhitespaceBetween(s, 0, lo) && WhitespaceBetween(s, hi, |s|)
  {
    var t := TrimStart(s);
    var u := TrimEnd(t);
    lo := |s| - |t|;
    hi := lo + |u|;
    assert u == t[..|u|];
    assert forall i :: hi <= i < |s| ==> s[i] == t[i - lo];
  }

  /** Leading trimming stops at the first character that is not whitespace. */
  lemma {:induction false} TrimStartAt(s: string, lo: nat)
    requires lo <= |s| && WhitespaceBetween(s, 0, lo)
    requires lo < |s| ==> !IsWhitespace(s[lo])
    ensures TrimStart(s) == s[lo..]
    decreases lo
  {
    if lo > 0 {
      assert forall i :: 0 <= i < lo - 1 ==> s[1..][i] == s[i + 1];
      TrimStartAt(s[1..], lo - 1);
      assert s[1..][lo - 1..] == s[lo..];
    }
  }

  /** Trailing trimming stops at the last character that is not whitespace. */
  lemma {:induction false} TrimEndAt(s: string, hi: nat)
    requires hi <= |s| && WhitespaceBetween(s, hi, |s|)
    requires hi > 0 ==> !IsWhitespace(s[hi - 1])
    ensures TrimEnd(s) == s[..hi]
    decreases |s| - hi
  {
    if hi < |s| {
      var p := s[..|s| - 1];
      assert forall i :: hi <= i < |p| ==> p[i] == s[i];
      TrimEndAt(p, hi);
      assert p[..hi] == s[..hi];
    }
  }

  /** Both trimming steps together stop at a non-whitespace core `s[lo..hi]`. */
  lemma TrimCore(s: string, lo: nat, hi: nat)
    requires lo < hi <= |s|
    requires WhitespaceBetween(s, 0, lo) && WhitespaceBetween(s, hi, |s|)
    requires !IsWhitespace(s[lo]) && !IsWhitespace(s[hi - 1])
    ensures TrimEnd(TrimStart(s)) == s[lo..hi]
  {
    TrimStartAt(s, lo);
    SuffixCore(s, lo, hi);
  }

  /** Trailing trimming of the suffix `s[lo..]` stops at `hi`. */
  lemma SuffixCore(s: string, lo: nat, hi: nat)
    requires lo < hi <= |s|
    requires WhitespaceBetween(s, hi, |s|) && !IsWhitespace(s[hi - 1])
    ensures TrimEnd(s[lo..]) == s[lo..hi]
  {
    var t := s[lo..];
    var n := hi - lo;
    forall i | n <= i < |t| ensures IsWhitespace(t[i]) {
      assert t[i] == s[i + lo];
    }
    TrimEndAt(t, n);
    assert t[..n] == s[lo..hi];
  }

  /** Trim is determined by its defining property: whenever `s` splits into
      whitespace, a core that neither starts nor ends with whitespace, and
      whitespace, Trim returns exactly that core. */
  lemma TrimUnique(s: string, lo: nat, hi: nat)
    requires lo <= hi <= |s|
    requires WhitespaceBetween(s, 0, lo) && WhitespaceBetween(s, hi, |s|)
    requires lo < hi ==> !IsWhitespace(s[lo]) && !IsWhitespace(s[hi - 1])
    ensures Trim(s) == s[lo..hi]
  {
    if lo < hi {
      TrimCore(s, lo, hi);
    } else {
      assert AllWhitespace(s);
    }
  }

  /** Trimming twice is trimming once. */
  lemma TrimIdempotent(s: string)
    ensures Trim(Trim(s)) == Trim(s)
  {
    var t := Trim(s);
    TrimUnique(t, 0, |t|);
  }

  /** Trimming a string that is already trimmed changes nothing. */
  lemma TrimOfTrimmed(s: string)
    requires s != [] ==> !IsWhitespace(s[0]) && !IsWhitespace(s[|s| - 1])
    ensures Trim(s) == s
  {
    TrimUnique(s, 0, |s|);
  }

  /** A whitespace-only input, such as "   ", trims to the empty string. */
  lemma TrimBlank()
    ensures Trim("   ") == ""
  {
  }

  /** Text without surrounding whitespace, such as "Buy milk", is kept as is. */
  lemma TrimBuyMilk()
    ensures Trim("Buy milk") == "Buy milk"
  {
    TrimOfTrimmed("Buy milk");
  }
}
