/**
 * String helpers shared by the models: the whitespace sets that JavaScript's
 * `String.prototype.trim` and Python's `str.strip` remove, UTF-8 byte length
 * (Python's `len(s.encode("utf-8"))`), Python slicing and decimal rendering.
 * A Dafny `char` is a Unicode scalar value, so a string here is a sequence of
 * code points, as a Python `str` is.
 */
module Text {

  newtype byte = x: int | 0 <= x < 256

  /** White space and line terminators as ECMAScript's `trim` removes them. */
  predicate IsJsWhitespace(c: char) {
    c == '\t' || c == '\n' || c == '\U{000B}' || c == '\U{000C}' || c == '\r' || c == ' '
    || c == '\U{00A0}' || c == '\U{1680}' || ('\U{2000}' <= c <= '\U{200A}')
    || c == '\U{2028}' || c == '\U{2029}' || c == '\U{202F}' || c == '\U{205F}'
    || c == '\U{3000}' || c == '\U{FEFF}'
  }

  /** Characters for which Python's `str.isspace` holds (what `str.strip()` removes). */
  predicate IsPyWhitespace(c: char) {
    ('\t' <= c <= '\r') || ('\U{001C}' <= c <= ' ')
    || c == '\U{0085}' || c == '\U{00A0}' || c == '\U{1680}' || ('\U{2000}' <= c <= '\U{200A}')
    || c == '\U{2028}' || c == '\U{2029}' || c == '\U{202F}' || c == '\U{205F}' || c == '\U{3000}'
  }

  predicate AllWhitespace(s: string, ws: char -> bool) {
    forall i :: 0 <= i < |s| ==> ws(s[i])
  }

  /** Drops the leading characters satisfying `ws`. */
  function TrimStart(s: string, ws: char -> bool): (r: string)
    ensures |r| <= |s| && r == s[|s| - |r|..]
    ensures AllWhitespace(s[..|s| - |r|], ws)
    ensures r == [] || !ws(r[0])
  {
    if s == [] || !ws(s[0]) then s
    else
      var rest := TrimStart(s[1..], ws);
      assert s[1..][..|s| - 1 - |rest|] == s[1..|s| - |rest|];
      rest
  }

  /** Drops the trailing characters satisfying `ws`. */
  function TrimEnd(s: string, ws: char -> bool): (r: string)
    ensures |r| <= |s| && r == s[..|r|]
    ensures AllWhitespace(s[|r|..], ws)
    ensures r == [] || !ws(r[|r| - 1])
  {
    if s == [] || !ws(s[|s| - 1]) then s
    else
      var rest := TrimEnd(s[..|s| - 1], ws);
      assert s[..|s| - 1][|rest|..] == s[|rest|..|s| - 1];
      rest
  }

  /** Both ends stripped: JavaScript `trim()` with IsJsWhitespace, Python `strip()` with IsPyWhitespace. */
  function Strip(s: string, ws: char -> bool): (r: string)
    ensures |r| <= |s|
    ensures r == [] || (!ws(r[0]) && !ws(r[|r| - 1]))
  {
    TrimEnd(TrimStart(s, ws), ws)
  }

  /** Stripping leaves nothing exactly when every character is white space. */
  lemma {:induction false} StripEmptyIff(s: string, ws: char -> bool)
    ensures Strip(s, ws) == [] <==> AllWhitespace(s, ws)
  {
    var t := TrimStart(s, ws);
    if Strip(s, ws) == [] {
      // a non-empty t would start with a non-space that TrimEnd keeps
      assert t[|TrimEnd(t, ws)|..] == t;
      assert t == [];
      assert s[..|s| - |t|] == s;
    } else {
      var r := Strip(s, ws);
      assert !ws(r[0]);
      assert r == t[..|r|];
      assert t == s[|s| - |t|..];
      assert r[0] == s[|s| - |t|];
    }
  }

  /** What stripping keeps is a contiguous piece of the input. */
  lemma {:induction false} StripWithin(s: string, ws: char -> bool) returns (k: nat)
    ensures k + |Strip(s, ws)| <= |s| && s[k..k + |Strip(s, ws)|] == Strip(s, ws)
  {
    var t := TrimStart(s, ws);
    var r := TrimEnd(t, ws);
    k := |s| - |t|;
    assert t == s[k..] && r == t[..|r|];
    forall i | 0 <= i < |r| ensures s[k + i] == r[i] {
      assert r[i] == t[i];
    }
  }

  /** How many bytes UTF-8 uses for one scalar value (RFC 3629, section 3). */
  function Utf8Width(c: char): (w: nat)
    ensures 1 <= w <= 4
  {
    if c as int < 0x80 then 1 else if c as int < 0x800 then 2 else if c as int < 0x10000 then 3 else 4
  }

  /** The UTF-8 encoding of one scalar value (RFC 3629, section 3). */
  function Utf8Char(c: char): (r: seq<byte>)
    ensures |r| == Utf8Width(c)
    ensures |r| == 1 <==> c as int < 0x80
  {
    var v := c as int;
    if v < 0x80 then [v as byte]
    else if v < 0x800 then [(0xC0 + v / 64) as byte, (0x80 + v % 64) as byte]
    else if v < 0x10000 then
      [(0xE0 + v / 4096) as byte, (0x80 + (v / 64) % 64) as byte, (0x80 + v % 64) as byte]
    else
      [(0xF0 + v / 262144) as byte, (0x80 + (v / 4096) % 64) as byte,
       (0x80 + (v / 64) % 64) as byte, (0x80 + v % 64) as byte]
  }

  function Utf8Encode(s: string): seq<byte> {
    if s == [] then [] else Utf8Char(s[0]) + Utf8Encode(s[1..])
  }

  /** Python's `len(s.encode("utf-8"))`. */
  function Utf8Length(s: string): (n: nat)
    ensures |s| <= n <= 4 * |s|
  {
    if s == [] then 0 else Utf8Width(s[0]) + Utf8Length(s[1..])
  }

  lemma {:induction false} Utf8LengthIsEncodedLength(s: string)
    ensures Utf8Length(s) == |Utf8Encode(s)|
  {
    if s != [] {
      Utf8LengthIsEncodedLength(s[1..]);
    }
  }

  lemma {:induction false} Utf8LengthAppend(a: string, b: string)
    ensures Utf8Length(a + b) == Utf8Length(a) + Utf8Length(b)
  {
    if a != [] {
      assert (a + b)[1..] == a[1..] + b;
      Utf8LengthAppend(a[1..], b);
    } else {
      assert a + b == b;
    }
  }

  lemma {:induction false} Utf8EncodeAppend(a: string, b: string)
    ensures Utf8Encode(a + b) == Utf8Encode(a) + Utf8Encode(b)
  {
    if a != [] {
      assert (a + b)[1..] == a[1..] + b;
      Utf8EncodeAppend(a[1..], b);
    } else {
      assert a + b == b;
    }
  }

  /** One Python slice bound: negative counts from the end, then clamped into [0, n]. */
  function PyBound(i: int, n: nat): (r: nat)
    ensures r <= n
    ensures 0 <= i <= n ==> r == i
    ensures i > n ==> r == n
    ensures -(n as int) <= i < 0 ==> r == n + i
    ensures i < -(n as int) ==> r == 0
  {
    if i < 0 then (if i + n < 0 then 0 else i + n) else (if i > n then n else i)
  }

  /** Python's `s[start:end]` (step 1). */
  function PySlice(s: string, start: int, end: int): (r: string)
    ensures |r| <= |s|
    ensures PyBound(start, |s|) <= PyBound(end, |s|) ==> r == s[PyBound(start, |s|)..PyBound(end, |s|)]
    ensures PyBound(start, |s|) >= PyBound(end, |s|) ==> r == []
  {
    var a := PyBound(start, |s|);
    var b := PyBound(end, |s|);
    if a < b then s[a..b] else []
  }

  predicate StartsWith(s: string, prefix: string) {
    |prefix| <= |s| && s[..|prefix|] == prefix
  }

  /** "".join(parts) / repeated `+=`. */
  function Concat(parts: seq<string>): string {
    if parts == [] then [] else Concat(parts[..|parts| - 1]) + parts[|parts| - 1]
  }

  lemma {:induction false} ConcatSnoc(parts: seq<string>, last: string)
    ensures Concat(parts + [last]) == Concat(parts) + last
  {
    assert (parts + [last])[..|parts|] == parts;
  }

  lemma {:induction false} ConcatAppend(parts: seq<string>, more: seq<string>)
    ensures Concat(parts + more) == Concat(parts) + Concat(more)
    decreases |more|
  {
    if more == [] {
      assert parts + more == parts;
    } else {
      var init, last := more[..|more| - 1], more[|more| - 1];
      assert more == init + [last];
      assert parts + more == (parts + init) + [last];
      ConcatSnoc(parts + init, last);
      ConcatSnoc(init, last);
      ConcatAppend(parts, init);
    }
  }

  function DigitChar(d: nat): char
    requires d < 10
  {
    "0123456789"[d]
  }

  /** Decimal rendering of a natural number, as JavaScript template literals print it. */
  function DecimalString(n: nat): (r: string)
    ensures r != []
    ensures forall i :: 0 <= i < |r| ==> '0' <= r[i] <= '9'
  {
    if n < 10 then [DigitChar(n)] else DecimalString(n / 10) + [DigitChar(n % 10)]
  }

  function DecimalValue(s: string): nat
    requires forall i :: 0 <= i < |s| ==> '0' <= s[i] <= '9'
  {
    if s == [] then 0 else 10 * DecimalValue(s[..|s| - 1]) + (s[|s| - 1] as int - '0' as int)
  }

  /** The rendering is faithful: reading the digits back gives the number. */
  lemma {:induction false} DecimalRoundTrip(n: nat)
    ensures DecimalValue(DecimalString(n)) == n
  {
    var r := DecimalString(n);
    if n >= 10 {
      DecimalRoundTrip(n / 10);
      assert r[..|r| - 1] == DecimalString(n / 10);
    }
  }
}
