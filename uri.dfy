/**
 * `encodeURIComponent` (section 19.2.6.5 of ECMA-262): every character
 * outside the unreserved set is written as the `%XX` escapes of its UTF-8
 * bytes, with upper-case hexadecimal digits.  Dafny characters are Unicode
 * scalar values, so the lone-surrogate error of ECMAScript's `encodeURIComponent`
 * cannot arise.
 */
module Uri {
  /** The characters encodeURIComponent leaves alone. */
  predicate IsUnreserved(c: char) {
    ('A' <= c <= 'Z') || ('a' <= c <= 'z') || ('0' <= c <= '9')
    || c == '-' || c == '_' || c == '.' || c == '!' || c == '~' || c == '*' || c == '\'' || c == '(' || c == ')'
  }

  function HexDigit(d: nat): (c: char)
    requires d < 16
    ensures IsUnreserved(c)
  {
    "0123456789ABCDEF"[d]
  }

  predicate IsContinuation(b: nat) {
    0x80 <= b < 0xC0
  }

  /** The UTF-8 encoding of a scalar value; the first byte announces the length. */
  function Utf8(c: char): (bytes: seq<nat>)
    ensures 1 <= |bytes| <= 4 && forall k :: 0 <= k < |bytes| ==> bytes[k] < 0x100
    ensures forall k :: 1 <= k < |bytes| ==> IsContinuation(bytes[k])
    ensures |bytes| == 1 <==> c as int < 0x80
    ensures |bytes| == 1 ==> bytes[0] == c as int
    ensures |bytes| == 2 ==> 0xC0 <= bytes[0] < 0xE0
    ensures |bytes| == 3 ==> 0xE0 <= bytes[0] < 0xF0
    ensures |bytes| == 4 ==> 0xF0 <= bytes[0] < 0xF8
  {
    var n := c as int;
    if n < 0x80 then [n]
    else if n < 0x800 then [0xC0 + n / 0x40, 0x80 + n % 0x40]
    else if n < 0x10000 then [0xE0 + n / 0x1000, 0x80 + (n / 0x40) % 0x40, 0x80 + n % 0x40]
    else [0xF0 + n / 0x40000, 0x80 + (n / 0x1000) % 0x40, 0x80 + (n / 0x40) % 0x40, 0x80 + n % 0x40]
  }

  /** `%XX` for each byte. */
  function Escapes(bytes: seq<nat>): (r: string)
    requires forall k :: 0 <= k < |bytes| ==> bytes[k] < 0x100
    ensures |r| == 3 * |bytes|
    ensures forall k :: 0 <= k < |r| ==> IsUnreserved(r[k]) || r[k] == '%'
  {
    if bytes == [] then []
    else ['%', HexDigit(bytes[0] / 16), HexDigit(bytes[0] % 16)] + Escapes(bytes[1..])
  }

  function EncodeChar(c: char): (r: string)
    ensures 1 <= |r| && forall k :: 0 <= k < |r| ==> IsUnreserved(r[k]) || r[k] == '%'
    ensures IsUnreserved(c) ==> r == [c]
  {
    if IsUnreserved(c) then [c] else Escapes(Utf8(c))
  }

  /** encodeURIComponent: the output holds only unreserved characters and `%`. */
  function EncodeURIComponent(s: string): (r: string)
    ensures |r| >= |s|
    ensures forall k :: 0 <= k < |r| ==> IsUnreserved(r[k]) || r[k] == '%'
  {
    if s == [] then [] else EncodeChar(s[0]) + EncodeURIComponent(s[1..])
  }

  /** Encoding works character by character. */
  lemma {:induction false} EncodeAppend(s: string, t: string)
    ensures EncodeURIComponent(s + t) == EncodeURIComponent(s) + EncodeURIComponent(t)
  {
    if s != [] {
      assert (s + t)[0] == s[0] && (s + t)[1..] == s[1..] + t;
      EncodeAppend(s[1..], t);
      var e := EncodeChar(s[0]);
      assert EncodeURIComponent(s + t) == e + (EncodeURIComponent(s[1..]) + EncodeURIComponent(t));
    } else {
      assert s + t == t;
    }
  }

  /** A string of unreserved characters is its own encoding. */
  lemma {:induction false} EncodeUnreserved(s: string)
    requires forall k :: 0 <= k < |s| ==> IsUnreserved(s[k])
    ensures EncodeURIComponent(s) == s
  {
    if s != [] {
      EncodeUnreserved(s[1..]);
    }
  }

  /** No URL delimiter survives encoding. */
  lemma EncodeHasNoDelimiters(s: string)
    ensures '?' !in EncodeURIComponent(s) && '&' !in EncodeURIComponent(s)
    ensures '/' !in EncodeURIComponent(s) && '#' !in EncodeURIComponent(s)
  {
    var e := EncodeURIComponent(s);
    forall k | 0 <= k < |e|
      ensures e[k] != '?' && e[k] != '&' && e[k] != '/' && e[k] != '#'
    {
      assert IsUnreserved(e[k]) || e[k] == '%';
    }
  }
}
