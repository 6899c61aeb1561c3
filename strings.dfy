/**
 * The handful of ECMAScript string operations the front-end relies on,
 * written over Dafny strings (sequences of Unicode scalar values):
 * `includes`, `startsWith`, `replace` with a string pattern, `trim`,
 * and the decimal rendering of an integer in a template literal.
 */
module Strings {
  import opened Wrappers

  /** `t` occurs in `s` starting at index `i`. */
  predicate OccursAt(s: string, t: string, i: nat) {
    i + |t| <= |s| && s[i..i + |t|] == t
  }

  /** `t` occurs first at index `k`. */
  predicate FirstAt(s: string, t: string, k: nat) {
    OccursAt(s, t, k) && forall j: nat :: j < k ==> !OccursAt(s, t, j)
  }

  lemma OccursAtShift(s: string, t: string, j: nat)
    requires |s| > 0
    ensures OccursAt(s, t, j + 1) <==> OccursAt(s[1..], t, j)
  {
    if j + 1 + |t| <= |s| {
      assert s[j + 1..j + 1 + |t|] == s[1..][j..j + |t|];
    }
  }

  /** `s.indexOf(t)`: the index of the first occurrence of `t`, if any. */
  function IndexOf(s: string, t: string): (r: Option<nat>)
    ensures r.Some? ==> FirstAt(s, t, r.value)
    ensures r.None? ==> forall j: nat :: !OccursAt(s, t, j)
    decreases |s|
  {
    if |s| < |t| then None
    else if s[..|t|] == t then Some(0)
    else
      var rest := IndexOf(s[1..], t);
      assert forall j: nat :: 1 <= j ==> (OccursAt(s, t, j) <==> OccursAt(s[1..], t, j - 1)) by {
        forall j: nat | 1 <= j ensures OccursAt(s, t, j) <==> OccursAt(s[1..], t, j - 1) {
          OccursAtShift(s, t, j - 1);
        }
      }
      assert !OccursAt(s, t, 0);
      if rest.None? then None else Some(rest.value + 1)
  }

  /** The first occurrence of `t` is the one at `k`. */
  lemma IndexOfFirst(s: string, t: string, k: nat)
    requires FirstAt(s, t, k)
    ensures IndexOf(s, t) == Some(k)
  {
  }

  /** `s.includes(t)`. */
  predicate Contains(s: string, t: string) {
    IndexOf(s, t).Some?
  }

  lemma ContainsAt(s: string, t: string, k: nat)
    requires OccursAt(s, t, k)
    ensures Contains(s, t)
  {
  }

  /** A pattern whose first character does not occur in `p` is first found right after `p`. */
  lemma FirstAfter(p: string, t: string, x: string)
    requires t != [] && t[0] !in p
    ensures IndexOf(p + t + x, t) == Some(|p|)
  {
    var s := p + t + x;
    assert s[|p|..|p| + |t|] == t;
    forall j: nat | j < |p| ensures !OccursAt(s, t, j) {
      assert s[j] == p[j];
    }
    IndexOfFirst(s, t, |p|);
  }

  /** Inside an occurrence, `s` reads as `t`. */
  lemma OccursAtChar(s: string, t: string, k: nat, j: nat)
    requires OccursAt(s, t, k) && k <= j < k + |t|
    ensures s[j] == t[j - k]
  {
    assert s[k..k + |t|][j - k] == s[j];
  }

  /** Two texts that share a prefix share every slice inside it. */
  lemma PrefixSlice(r: string, s: string, i: nat, k: nat, n: nat)
    requires i <= |r| && i <= |s| && r[..i] == s[..i] && k + n <= i
    ensures r[k..k + n] == s[k..k + n]
  {
    assert r[k..k + n] == r[..i][k..k + n];
    assert s[k..k + n] == s[..i][k..k + n];
  }

  /** Two texts whose suffixes agree agree on every slice inside them, shifted. */
  lemma ShiftedSlice(r: string, s: string, d: nat, e: nat, k: nat, n: nat)
    requires d <= |r| && e <= k && k + n <= |s| && r[d..] == s[e..]
    ensures k - e + d + n <= |r| && r[k - e + d..k - e + d + n] == s[k..k + n]
  {
    var m := k - e;
    assert |r| - d == |s| - e;
    forall i | k <= i < k + n
      ensures r[i - e + d] == s[i]
    {
      assert r[d..][i - e] == s[e..][i - e];
    }
    assert r[m + d..m + d + n] == s[k..k + n];
  }

  /** Texts that differ at an index of their heads differ. */
  lemma DiffersInHead(a: string, x: string, b: string, y: string, i: nat)
    requires i < |a| && i < |b| && a[i] != b[i]
    ensures a + x != b + y
  {
    assert (a + x)[i] == a[i] && (b + y)[i] == b[i];
  }

  /** `s.startsWith(p)`. */
  predicate StartsWith(s: string, p: string) {
    |p| <= |s| && s[..|p|] == p
  }

  /**
   * `s.replace(pat, rep)` with a string pattern: only the first occurrence
   * is replaced; a string without one is returned unchanged.  (The
   * replacement strings of this program contain no `$`, so the special
   * replacement patterns play no part.)
   */
  function ReplaceFirst(s: string, pat: string, rep: string): (r: string)
    ensures IndexOf(s, pat).None? ==> r == s
    ensures IndexOf(s, pat).Some? ==>
      var i := IndexOf(s, pat).value;
      |r| == |s| - |pat| + |rep| && r[..i] == s[..i] && r[i..i + |rep|] == rep && r[i + |rep|..] == s[i + |pat|..]
  {
    match IndexOf(s, pat)
    case None => s
    case Some(i) => s[..i] + rep + s[i + |pat|..]
  }

  /**
   * The characters `String.prototype.trim` removes: the WhiteSpace and
   * LineTerminator code points of ECMAScript (sections 12.2 and 12.3 of ECMA-262).
   */
  predicate IsWhitespace(c: char) {
    var n := c as int;
    (9 <= n <= 13) || n == 0x20 || n == 0xA0 || n == 0x1680 || (0x2000 <= n <= 0x200A)
    || n == 0x2028 || n == 0x2029 || n == 0x202F || n == 0x205F || n == 0x3000 || n == 0xFEFF
  }

  predicate AllWhitespace(s: string) {
    forall k :: 0 <= k < |s| ==> IsWhitespace(s[k])
  }

  /** The length of the whitespace run that starts `s`. */
  function LeadingWhitespace(s: string): (n: nat)
    ensures n <= |s|
    ensures forall k :: 0 <= k < n ==> IsWhitespace(s[k])
    ensures n < |s| ==> !IsWhitespace(s[n])
  {
    if s != [] && IsWhitespace(s[0]) then 1 + LeadingWhitespace(s[1..]) else 0
  }

  /** The length of the whitespace run that ends `s`. */
  function TrailingWhitespace(s: string): (n: nat)
    ensures n <= |s|
    ensures forall k :: |s| - n <= k < |s| ==> IsWhitespace(s[k])
    ensures n < |s| ==> !IsWhitespace(s[|s| - 1 - n])
  {
    if s != [] && IsWhitespace(s[|s| - 1]) then 1 + TrailingWhitespace(s[..|s| - 1]) else 0
  }

  /**
   * `s.trim()`: what is left after removing whitespace at both ends; it is
   * empty exactly when `s` is all whitespace, and otherwise neither end is
   * whitespace.
   */
  function Trim(s: string): (r: string)
    ensures r == [] <==> AllWhitespace(s)
    ensures r == [] || (!IsWhitespace(r[0]) && !IsWhitespace(r[|r| - 1]))
  {
    var i := LeadingWhitespace(s);
    var j := TrailingWhitespace(s[i..]);
    assert i < |s| ==> j < |s| - i && s[i..][0] == s[i] && s[i..][|s| - i - 1 - j] == s[|s| - 1 - j];
    s[i..|s| - j]
  }

  /** The whitespace run before a non-whitespace character at `i` has length `i`. */
  lemma {:induction false} LeadingAt(s: string, i: nat)
    requires i < |s| && AllWhitespace(s[..i]) && !IsWhitespace(s[i])
    ensures LeadingWhitespace(s) == i
  {
    if i > 0 {
      assert s[..i][0] == s[0];
      var t := s[1..];
      assert t[..i - 1] == s[..i][1..] && t[i - 1] == s[i];
      LeadingAt(t, i - 1);
    }
  }

  /** The whitespace run after a non-whitespace character at `j - 1` has length `|s| - j`. */
  lemma {:induction false} TrailingAt(s: string, j: nat)
    requires 0 < j <= |s| && AllWhitespace(s[j..]) && !IsWhitespace(s[j - 1])
    ensures TrailingWhitespace(s) == |s| - j
  {
    if j < |s| {
      assert s[j..][|s| - 1 - j] == s[|s| - 1];
      var t := s[..|s| - 1];
      assert t[j..] == s[j..][..|s| - 1 - j] && t[j - 1] == s[j - 1];
      TrailingAt(t, j);
    }
  }

  /** Trim removes whitespace only: its result is the slice of `s` between two whitespace runs. */
  lemma TrimIsSlice(s: string)
    ensures exists i, j :: 0 <= i <= j <= |s| && Trim(s) == s[i..j] && AllWhitespace(s[..i]) && AllWhitespace(s[j..])
  {
    var i := LeadingWhitespace(s);
    var a := s[i..];
    var j := |s| - TrailingWhitespace(a);
    assert AllWhitespace(s[..i]) by {
      forall k | 0 <= k < i ensures IsWhitespace(s[..i][k]) {
        assert s[..i][k] == s[k];
      }
    }
    assert AllWhitespace(s[j..]) by {
      forall k | 0 <= k < |s| - j ensures IsWhitespace(s[j..][k]) {
        assert s[j..][k] == a[j - i + k];
      }
    }
    assert Trim(s) == s[i..j];
  }

  /** Trim keeps exactly the slice between whitespace runs whose ends are not whitespace. */
  lemma TrimAt(s: string, i: nat, j: nat)
    requires i < j <= |s| && AllWhitespace(s[..i]) && AllWhitespace(s[j..])
    requires !IsWhitespace(s[i]) && !IsWhitespace(s[j - 1])
    ensures Trim(s) == s[i..j]
  {
    LeadingAt(s, i);
    var a := s[i..];
    assert a[j - i..] == s[j..] && a[j - i - 1] == s[j - 1];
    TrailingAt(a, j - i);
  }

  /** Trimming whitespace padding off a text whose ends are not whitespace leaves the text. */
  lemma TrimPadded(a: string, m: string, b: string)
    requires AllWhitespace(a) && AllWhitespace(b)
    requires m != [] && !IsWhitespace(m[0]) && !IsWhitespace(m[|m| - 1])
    ensures Trim(a + m + b) == m
  {
    var s := a + m + b;
    var j := |a| + |m|;
    assert s[..|a|] == a && s[j..] == b && s[|a|..j] == m;
    assert s[|a|] == m[0] && s[j - 1] == m[|m| - 1];
    TrimAt(s, |a|, j);
  }

  // ----- decimal numbers, as a template literal renders an integer -----

  function DigitChar(d: nat): (c: char)
    requires d < 10
  {
    "0123456789"[d]
  }

  predicate IsDigit(c: char) {
    '0' <= c <= '9'
  }

  function DigitValue(c: char): (d: nat)
    requires IsDigit(c)
  {
    (c as int) - ('0' as int)
  }

  /** The decimal digits of `n`, most significant first, without leading zeros. */
  function NatToString(n: nat): (r: string)
    ensures |r| > 0 && forall k :: 0 <= k < |r| ==> IsDigit(r[k])
  {
    if n < 10 then [DigitChar(n)] else NatToString(n / 10) + [DigitChar(n % 10)]
  }

  /** `${n}` for an integer `n`. */
  function IntToString(n: int): (r: string)
    ensures |r| > 0
  {
    if n < 0 then "-" + NatToString(-n) else NatToString(n)
  }

  /** The value of a string of decimal digits. */
  function DigitsValue(s: string): nat
    requires forall k :: 0 <= k < |s| ==> IsDigit(s[k])
  {
    if s == [] then 0 else DigitsValue(s[..|s| - 1]) * 10 + DigitValue(s[|s| - 1])
  }

  /** The value of a decimal integer literal with an optional minus sign. */
  function ParseInt(s: string): Option<int> {
    if s != [] && s[0] == '-' && |s| > 1 && forall k :: 1 <= k < |s| ==> IsDigit(s[k]) then
      var v: int := DigitsValue(s[1..]);
      Some(-v)
    else if s != [] && forall k :: 0 <= k < |s| ==> IsDigit(s[k]) then
      Some(DigitsValue(s))
    else None
  }

  lemma {:induction false} NatToStringValue(n: nat)
    ensures DigitsValue(NatToString(n)) == n
  {
    if n >= 10 {
      var s := NatToString(n);
      assert s[..|s| - 1] == NatToString(n / 10);
      NatToStringValue(n / 10);
    }
  }

  /** A minus sign before digits reads as the negated value of the digits. */
  lemma SignedParse(d: string)
    requires d != [] && forall k :: 0 <= k < |d| ==> IsDigit(d[k])
    ensures ParseInt("-" + d) == Some(-(DigitsValue(d) as int))
  {
    var s := "-" + d;
    assert s[0] == '-' && s[1..] == d;
    assert forall k :: 1 <= k < |s| ==> IsDigit(s[k]) by {
      forall k | 1 <= k < |s| ensures IsDigit(s[k]) {
        assert s[k] == d[k - 1];
      }
    }
  }

  /** Digits alone read as their value. */
  lemma UnsignedParse(d: string)
    requires d != [] && forall k :: 0 <= k < |d| ==> IsDigit(d[k])
    ensures ParseInt(d) == Some(DigitsValue(d))
  {
    assert IsDigit(d[0]);
  }

  /** Reading back the decimal rendering of an integer gives the integer. */
  lemma IntToStringRoundTrip(n: int)
    ensures ParseInt(IntToString(n)) == Some(n)
  {
    if n < 0 {
      NegativeRoundTrip(-n);
    } else {
      UnsignedParse(NatToString(n));
      NatToStringValue(n);
    }
  }

  lemma NegativeRoundTrip(m: nat)
    requires m > 0
    ensures ParseInt(IntToString(-(m as int))) == Some(-(m as int))
  {
    var d := NatToString(m);
    IntToStringNegative(m);
    SignedParse(d);
    NatToStringValue(m);
  }

  lemma IntToStringNegative(m: nat)
    requires m > 0
    ensures IntToString(-(m as int)) == "-" + NatToString(m)
  {
  }
}
