/** JSON strings and integers as `json.dumps` writes them and `json.loads` reads them
    (sections 6 and 7 of RFC 8259, with Python's treatment of surrogates).

    A Python string is a sequence of code points, which may include lone surrogates. */
module JsonText {
  import opened Basics

  type CodePoint = x: int | 0 <= x < 0x110000

  type Text = seq<CodePoint>

  const QUOTE: Byte := 0x22
  const BACKSLASH: Byte := 0x5C

  predicate High(c: int) {
    0xD800 <= c < 0xDC00
  }

  predicate Low(c: int) {
    0xDC00 <= c < 0xE000
  }

  function Combine(hi: int, lo: int): CodePoint
    requires High(hi) && Low(lo)
  {
    0x10000 + (hi - 0xD800) * 0x400 + (lo - 0xDC00)
  }

  /** Reads a string the way a UTF-16 decoder does: a high surrogate directly followed by a
      low one becomes the code point they encode. */
  function Merge(s: Text): (r: Text)
    ensures |r| <= |s|
  {
    if s == [] then []
    else if |s| >= 2 && High(s[0]) && Low(s[1]) then [Combine(s[0], s[1])] + Merge(s[2..])
    else [s[0]] + Merge(s[1..])
  }

  /** No high surrogate is directly followed by a low one. */
  predicate WellPaired(s: Text) {
    forall i :: 0 <= i < |s| - 1 ==> !(High(s[i]) && Low(s[i + 1]))
  }

  lemma {:induction false} MergeFixesIffWellPaired(s: Text)
    ensures Merge(s) == s <==> WellPaired(s)
  {
    if s != [] {
      if |s| >= 2 && High(s[0]) && Low(s[1]) {
        assert |Merge(s)| < |s|;
      } else {
        MergeFixesIffWellPaired(s[1..]);
        assert s == [s[0]] + s[1..];
        assert Merge(s) == s <==> Merge(s[1..]) == s[1..] by {
          assert Merge(s)[1..] == Merge(s[1..]);
        }
        if WellPaired(s[1..]) {
          forall i | 0 <= i < |s| - 1 ensures !(High(s[i]) && Low(s[i + 1])) {
            if i > 0 {
              assert s[i] == s[1..][i - 1] && s[i + 1] == s[1..][i];
            }
          }
        }
        if WellPaired(s) {
          forall i | 0 <= i < |s[1..]| - 1 ensures !(High(s[1..][i]) && Low(s[1..][i + 1])) {
            assert s[1..][i] == s[i + 1] && s[1..][i + 1] == s[i + 2];
          }
        }
      }
    }
  }

  function HexDigit(n: int): Byte
    requires 0 <= n < 16
  {
    if n < 10 then 0x30 + n else 0x61 + (n - 10)
  }

  function FromHexDigit(b: Byte): (r: Option<int>)
    ensures r.Some? ==> 0 <= r.value < 16
  {
    if 0x30 <= b <= 0x39 then Some(b - 0x30)
    else if 0x61 <= b <= 0x66 then Some(b - 0x61 + 10)
    else if 0x41 <= b <= 0x46 then Some(b - 0x41 + 10)
    else None
  }

  function Hex4(v: int): (r: Bytes)
    requires 0 <= v < 0x10000
    ensures |r| == 4
  {
    [HexDigit(v / 16 / 16 / 16), HexDigit(v / 16 / 16 % 16), HexDigit(v / 16 % 16), HexDigit(v % 16)]
  }

  function FromHex4(b: Bytes): (r: Option<int>)
    requires |b| >= 4
    ensures r.Some? ==> 0 <= r.value < 0x10000
  {
    var d0, d1, d2, d3 := FromHexDigit(b[0]), FromHexDigit(b[1]), FromHexDigit(b[2]), FromHexDigit(b[3]);
    if d0.Some? && d1.Some? && d2.Some? && d3.Some? then
      Some(d0.value * 0x1000 + d1.value * 0x100 + d2.value * 0x10 + d3.value)
    else None
  }

  lemma HexDigitRoundTrip(n: int)
    requires 0 <= n < 16
    ensures FromHexDigit(HexDigit(n)) == Some(n)
  {
  }

  lemma HexRoundTrip(v: int, rest: Bytes)
    requires 0 <= v < 0x10000
    ensures FromHex4(Hex4(v) + rest) == Some(v)
  {
    hide HexDigit, FromHexDigit;
    HexDigitRoundTrip(v / 16 / 16 / 16);
    HexDigitRoundTrip(v / 16 / 16 % 16);
    HexDigitRoundTrip(v / 16 % 16);
    HexDigitRoundTrip(v % 16);
  }

  function UnicodeEscape(v: int): (r: Bytes)
    requires 0 <= v < 0x10000
    ensures |r| == 6
  {
    [BACKSLASH, 0x75] + Hex4(v)
  }

  function HighHalf(c: CodePoint): int
    requires c >= 0x10000
  {
    0xD800 + (c - 0x10000) / 0x400
  }

  function LowHalf(c: CodePoint): int
    requires c >= 0x10000
  {
    0xDC00 + (c - 0x10000) % 0x400
  }

  /** The two-character escapes, by the character that follows the backslash. */
  function ShortEscape(c: CodePoint): Option<Byte> {
    if c == 0x22 then Some(0x22)
    else if c == 0x5C then Some(0x5C)
    else if c == 0x0A then Some(0x6E)
    else if c == 0x0D then Some(0x72)
    else if c == 0x09 then Some(0x74)
    else if c == 0x0C then Some(0x66)
    else if c == 0x08 then Some(0x62)
    else None
  }

  function FromShortEscape(b: Byte): Option<CodePoint> {
    if b == 0x22 then Some(0x22)
    else if b == 0x5C then Some(0x5C)
    else if b == 0x2F then Some(0x2F)
    else if b == 0x6E then Some(0x0A)
    else if b == 0x72 then Some(0x0D)
    else if b == 0x74 then Some(0x09)
    else if b == 0x66 then Some(0x0C)
    else if b == 0x62 then Some(0x08)
    else None
  }

  /** `json.dumps` with its default `ensure_ascii`: printable ASCII as itself, the rest escaped. */
  function Escape(c: CodePoint): (r: Bytes)
    ensures r != []
  {
    if ShortEscape(c).Some? then [BACKSLASH, ShortEscape(c).value]
    else if 0x20 <= c <= 0x7E then [c]
    else if c < 0x10000 then UnicodeEscape(c)
    else UnicodeEscape(HighHalf(c)) + UnicodeEscape(LowHalf(c))
  }

  function EscapeAll(s: Text): Bytes {
    if s == [] then [] else Escape(s[0]) + EscapeAll(s[1..])
  }

  /** A line feed, an emoji and a lone surrogate, byte for byte. */
  lemma EscapeKnown()
    ensures EscapeAll([0x0A]) == [BACKSLASH, 0x6E]
    ensures EscapeAll([0x1F600])
         == [BACKSLASH, 0x75, 0x64, 0x38, 0x33, 0x64, BACKSLASH, 0x75, 0x64, 0x65, 0x30, 0x30]
    ensures EscapeAll([0xDFFF]) == [BACKSLASH, 0x75, 0x64, 0x66, 0x66, 0x66]
  {
    assert HighHalf(0x1F600) == 0xD83D && LowHalf(0x1F600) == 0xDE00;
  }

  /** Every character below 128: seven have a short escape, the other control characters and DEL
      a numeric one, and the rest stand for themselves. */
  lemma EscapeAsciiIs(c: CodePoint)
    requires c < 0x80
    ensures Escape(c) ==
            if c == 0x22 then [0x5C, 0x22] else if c == 0x5C then [0x5C, 0x5C]
            else if c == 0x08 then [0x5C, 0x62] else if c == 0x09 then [0x5C, 0x74] else if c == 0x0A then [0x5C, 0x6E]
            else if c == 0x0C then [0x5C, 0x66] else if c == 0x0D then [0x5C, 0x72]
            else if 0x20 <= c <= 0x7E then [c]
            else [0x5C, 0x75, 0x30, 0x30, 0x30 + c / 16, if c % 16 < 10 then 0x30 + c % 16 else 0x57 + c % 16]
  {
    assert c / 16 / 16 == 0 && c / 16 % 16 == c / 16;
  }

  datatype Scan<+T> = Scan(value: T, rest: Bytes)

  function Prepend(c: CodePoint, r: Result<Scan<Text>>): Result<Scan<Text>> {
    if r.Ok? then Ok(Scan([c] + r.value.value, r.value.rest)) else r
  }

  /** A `\u` escape at the head of `b`. */
  function UnicodeAt(b: Bytes): (r: Option<int>)
    ensures r.Some? ==> |b| >= 6 && 0 <= r.value < 0x10000
  {
    if |b| >= 6 && b[0] == BACKSLASH && b[1] == 0x75 then FromHex4(b[2..]) else None
  }

  /** The string scanner of `json.loads`, started after the opening quote. */
  function ScanString(b: Bytes): (r: Result<Scan<Text>>)
    ensures r.Ok? ==> |r.value.rest| < |b|
    ensures r.Err? ==> r.error == FormatError
  {
    if b == [] then Err(FormatError)
    else if b[0] == QUOTE then Ok(Scan([], b[1..]))
    else if b[0] < 0x20 then Err(FormatError)
    else if b[0] != BACKSLASH then Prepend(b[0], ScanString(b[1..]))
    else if |b| < 2 then Err(FormatError)
    else if b[1] != 0x75 then
      match FromShortEscape(b[1])
      case None => Err(FormatError)
      case Some(c) => Prepend(c, ScanString(b[2..]))
    else
      match UnicodeAt(b)
      case None => Err(FormatError)
      case Some(u) =>
        if !(High(u) && |b| >= 8 && b[6] == BACKSLASH && b[7] == 0x75) then Prepend(u, ScanString(b[6..]))
        else
          match UnicodeAt(b[6..])
          case None => Err(FormatError)
          case Some(v) =>
            if Low(v) then Prepend(Combine(u, v), ScanString(b[12..])) else Prepend(u, ScanString(b[6..]))
  }

  lemma UnicodeAtEscape(v: int, rest: Bytes)
    requires 0 <= v < 0x10000
    ensures UnicodeAt(UnicodeEscape(v) + rest) == Some(v)
    ensures (UnicodeEscape(v) + rest)[6..] == rest
  {
    assert (UnicodeEscape(v) + rest)[2..] == Hex4(v) + rest;
    HexRoundTrip(v, rest);
  }

  lemma SurrogateHalves(c: CodePoint)
    requires c >= 0x10000
    ensures High(HighHalf(c)) && Low(LowHalf(c)) && Combine(HighHalf(c), LowHalf(c)) == c
  {
  }

  /** What the scanner sees after one escaped character: a `\u` escape exactly when the character
      was escaped that way, of the character itself or of its high half. */
  lemma EscapeHead(c: CodePoint, rest: Bytes)
    ensures var b := Escape(c) + rest;
            if ShortEscape(c).None? && !(0x20 <= c <= 0x7E) then
              UnicodeAt(b) == Some(if c < 0x10000 then c else HighHalf(c))
            else |b| >= 2 ==> !(b[0] == BACKSLASH && b[1] == 0x75)
  {
    if ShortEscape(c).None? && !(0x20 <= c <= 0x7E) {
      if c < 0x10000 {
        UnicodeAtEscape(c, rest);
      } else {
        assert Escape(c) + rest == UnicodeEscape(HighHalf(c)) + (UnicodeEscape(LowHalf(c)) + rest);
        UnicodeAtEscape(HighHalf(c), UnicodeEscape(LowHalf(c)) + rest);
      }
    } else if ShortEscape(c).Some? {
      assert (Escape(c) + rest)[1] == ShortEscape(c).value;
    } else {
      assert (Escape(c) + rest)[0] == c;
    }
  }

  /** `tail` does not start with a `\u` escape, or starts with a complete one that is not of a low
      surrogate. */
  predicate NoLowEscape(tail: Bytes) {
    |tail| >= 2 ==> !(tail[0] == BACKSLASH && tail[1] == 0x75) || (UnicodeAt(tail).Some? && !Low(UnicodeAt(tail).value))
  }

  lemma ScanAstral(c: CodePoint, tail: Bytes)
    requires c >= 0x10000
    ensures ScanString(UnicodeEscape(HighHalf(c)) + (UnicodeEscape(LowHalf(c)) + tail)) == Prepend(c, ScanString(tail))
  {
    SurrogateHalves(c);
    ScanPair(HighHalf(c), LowHalf(c), tail);
  }

  lemma ScanUnicode(c: CodePoint, tail: Bytes)
    requires c < 0x10000
    requires High(c) ==> NoLowEscape(tail)
    ensures ScanString(UnicodeEscape(c) + tail) == Prepend(c, ScanString(tail))
  {
    hide UnicodeAt;
    var b := UnicodeEscape(c) + tail;
    UnicodeAtEscape(c, tail);
    assert |tail| >= 2 ==> b[6] == tail[0] && b[7] == tail[1];
  }

  lemma ScanShort(c: CodePoint, tail: Bytes)
    requires ShortEscape(c).Some?
    ensures ScanString([BACKSLASH, ShortEscape(c).value] + tail) == Prepend(c, ScanString(tail))
  {
    var b := [BACKSLASH, ShortEscape(c).value] + tail;
    assert b[0] == BACKSLASH && b[1] == ShortEscape(c).value && b[2..] == tail;
  }

  lemma ScanPlain(c: CodePoint, tail: Bytes)
    requires ShortEscape(c).None? && 0x20 <= c <= 0x7E
    ensures ScanString([c] + tail) == Prepend(c, ScanString(tail))
  {
    var b := [c] + tail;
    assert b[0] == c && b[1..] == tail;
  }

  /** The scanner undoes one escape, unless it merges it with a following low surrogate. */
  lemma ScanEscape(c: CodePoint, tail: Bytes)
    requires High(c) ==> NoLowEscape(tail)
    ensures ScanString(Escape(c) + tail) == Prepend(c, ScanString(tail))
  {
    hide UnicodeAt, UnicodeEscape, ScanString, Prepend, ShortEscape;
    if ShortEscape(c).Some? {
      ScanShort(c, tail);
    } else if 0x20 <= c <= 0x7E {
      ScanPlain(c, tail);
    } else if c < 0x10000 {
      ScanUnicode(c, tail);
    } else {
      ScanAstral(c, tail);
      assert Escape(c) + tail == UnicodeEscape(HighHalf(c)) + (UnicodeEscape(LowHalf(c)) + tail);
    }
  }

  lemma ScanPair(hi: int, lo: int, tail: Bytes)
    requires High(hi) && Low(lo)
    ensures ScanString(UnicodeEscape(hi) + (UnicodeEscape(lo) + tail)) == Prepend(Combine(hi, lo), ScanString(tail))
  {
    var low := UnicodeEscape(lo) + tail;
    var b := UnicodeEscape(hi) + low;
    UnicodeAtEscape(hi, low);
    UnicodeAtEscape(lo, tail);
    assert b[6] == low[0] == BACKSLASH && b[7] == low[1] == 0x75;
    assert b[12..] == low[6..];
  }

  lemma ScanEnd(rest: Bytes)
    ensures ScanString([QUOTE] + rest) == Ok(Scan([], rest))
  {
    assert ([QUOTE] + rest)[1..] == rest;
  }

  lemma EscapeAllPair(s: Text, end: Bytes)
    requires |s| >= 2 && High(s[0]) && Low(s[1])
    ensures EscapeAll(s) + end == UnicodeEscape(s[0]) + (UnicodeEscape(s[1]) + (EscapeAll(s[2..]) + end))
  {
    hide UnicodeEscape;
    assert s[1..][1..] == s[2..];
    assert EscapeAll(s) == UnicodeEscape(s[0]) + (UnicodeEscape(s[1]) + EscapeAll(s[2..]));
  }

  lemma EscapeAllHead(s: Text, end: Bytes)
    requires s != []
    ensures EscapeAll(s) + end == Escape(s[0]) + (EscapeAll(s[1..]) + end)
  {
  }

  /** Scanning an escaped string gives the string with its surrogate pairs merged. */
  lemma {:induction false} ScanEscaped(s: Text, rest: Bytes)
    ensures ScanString(EscapeAll(s) + ([QUOTE] + rest)) == Ok(Scan(Merge(s), rest))
    decreases |s|
  {
    hide ScanString, Escape, UnicodeEscape, UnicodeAt;
    var end := [QUOTE] + rest;
    if s == [] {
      assert EscapeAll(s) + end == end;
      ScanEnd(rest);
    } else if |s| >= 2 && High(s[0]) && Low(s[1]) {
      EscapeAllPair(s, end);
      ScanPair(s[0], s[1], EscapeAll(s[2..]) + end);
      ScanEscaped(s[2..], rest);
    } else {
      EscapeAllHead(s, end);
      if High(s[0]) {
        NextEscape(s[1..], end);
      }
      ScanEscape(s[0], EscapeAll(s[1..]) + end);
      ScanEscaped(s[1..], rest);
    }
  }

  /** What follows an escaped character is a `\u` escape of a low surrogate only if the next
      character is one. */
  lemma NextEscape(s: Text, end: Bytes)
    requires end != [] && end[0] == QUOTE && (s != [] ==> !Low(s[0]))
    ensures NoLowEscape(EscapeAll(s) + end)
  {
    if s == [] {
      assert EscapeAll(s) + end == end;
    } else {
      hide Escape, EscapeAll, UnicodeAt;
      EscapeAllHead(s, end);
      EscapeHead(s[0], EscapeAll(s[1..]) + end);
      if s[0] >= 0x10000 { SurrogateHalves(s[0]); }
    }
  }

  predicate Ascii(b: Bytes) {
    forall i :: 0 <= i < |b| ==> b[i] < 0x80
  }

  lemma EscapeAscii(c: CodePoint)
    ensures Ascii(Escape(c))
  {
  }

  lemma {:induction false} EscapeAllAscii(s: Text)
    ensures Ascii(EscapeAll(s))
  {
    hide Escape;
    if s != [] {
      EscapeAscii(s[0]);
      EscapeAllAscii(s[1..]);
    }
  }

  predicate IsDigit(b: Byte) {
    0x30 <= b <= 0x39
  }

  /** Decimal digits of a natural number. */
  function Digits(n: nat): (r: Bytes)
    ensures r != [] && forall i :: 0 <= i < |r| ==> IsDigit(r[i])
    ensures r[0] == 0x30 ==> |r| == 1
    ensures n > 0 ==> r[0] != 0x30
  {
    if n < 10 then [0x30 + n] else Digits(n / 10) + [0x30 + n % 10]
  }

  function DigitsValue(b: Bytes): nat
    requires forall i :: 0 <= i < |b| ==> IsDigit(b[i])
  {
    if b == [] then 0
    else
      assert IsDigit(b[|b| - 1]);
      DigitsValue(b[..|b| - 1]) * 10 + (b[|b| - 1] - 0x30)
  }

  lemma {:induction false} DigitsRoundTrip(n: nat)
    ensures DigitsValue(Digits(n)) == n
  {
    if n >= 10 {
      DigitsRoundTrip(n / 10);
      assert Digits(n)[..|Digits(n)| - 1] == Digits(n / 10);
    } else {
      assert Digits(n)[..0] == [];
    }
  }

  /** CPython refuses to convert longer decimal integers, by its default limit. */
  const MAX_INT_DIGITS := 4300

  /** A number has no more digits than any text of digits it was read from. */
  lemma {:induction false} DigitsShortest(b: Bytes)
    requires b != [] && forall i :: 0 <= i < |b| ==> IsDigit(b[i])
    ensures |Digits(DigitsValue(b))| <= |b|
  {
    assert IsDigit(b[|b| - 1]);
    if |b| > 1 {
      DigitsShortest(b[..|b| - 1]);
      var v := DigitsValue(b);
      assert v / 10 == DigitsValue(b[..|b| - 1]);
    } else {
      assert DigitsValue(b[..0]) == 0;
    }
  }

  /** How many digits `b` starts with. */
  function DigitRun(b: Bytes): (n: nat)
    ensures n <= |b| && (forall i :: 0 <= i < n ==> IsDigit(b[i])) && (n < |b| ==> !IsDigit(b[n]))
  {
    if b == [] || !IsDigit(b[0]) then 0 else 1 + DigitRun(b[1..])
  }
}
