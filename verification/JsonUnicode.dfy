/** Code points and their UTF-8 and `\u` forms, as the JSON writer and reader convert them.
    Bytes are characters below 256. */
module JsonUnicode {
  import opened HttpTypes
  import opened Options

  predicate Bytes(s: string) { forall c | c in s :: c as int < 256 }

  /** Unicode scalar values: every code point but the surrogates. */
  predicate Scalar(cp: nat) { cp <= 0x10FFFF && !(0xD800 <= cp <= 0xDFFF) }

  function Byte(x: nat): char
    requires x < 256
  {
    x as char
  }

  /** `codePointToUTF8`. */
  function ToUtf8(cp: nat): (s: string)
    ensures Bytes(s) && |s| <= 4
  {
    if cp <= 0x7F then [Byte(cp)]
    else if cp <= 0x7FF then [Byte(0xC0 + cp / 64 % 32), Byte(0x80 + cp % 64)]
    else if cp <= 0xFFFF then [Byte(0xE0 + cp / 4096 % 16), Byte(0x80 + cp / 64 % 64), Byte(0x80 + cp % 64)]
    else if cp <= 0x10FFFF then
      [Byte(0xF0 + cp / 262144 % 8), Byte(0x80 + cp / 4096 % 64), Byte(0x80 + cp / 64 % 64), Byte(0x80 + cp % 64)]
    else ""
  }

  /** A code point and the number of bytes taken for it. */
  datatype Point = Point(cp: nat, len: nat)

  const REPLACEMENT := 0xFFFD

  /** The low six bits of a byte. */
  function Six(c: char): nat { c as int % 64 }

  /** `utf8ToCodepoint` at the start of `s`. A byte that cannot start a sequence is taken as if it
      did, and neither continuation bytes nor the upper bound are checked. */
  function FromUtf8(s: string): (p: Point)
    requires s != ""
    ensures 1 <= p.len <= |s| && p.len <= 4
    ensures p.cp <= 0x1F_FFFF && !(0xD800 <= p.cp <= 0xDFFF)
    ensures p.cp < 0x80 ==> p == Point(s[0] as int, 1)
  {
    var b := s[0] as int;
    if b < 0x80 then Point(b, 1)
    else if b < 0xE0 then
      if |s| < 2 then Point(REPLACEMENT, 1)
      else
        var cp := b % 32 * 64 + Six(s[1]);
        Point(if cp < 0x80 then REPLACEMENT else cp, 2)
    else if b < 0xF0 then
      if |s| < 3 then Point(REPLACEMENT, 1)
      else
        var cp := b % 16 * 4096 + Six(s[1]) * 64 + Six(s[2]);
        Point(if 0xD800 <= cp <= 0xDFFF || cp < 0x800 then REPLACEMENT else cp, 3)
    else if b < 0xF8 then
      if |s| < 4 then Point(REPLACEMENT, 1)
      else
        var cp := b % 8 * 262144 + Six(s[1]) * 4096 + Six(s[2]) * 64 + Six(s[3]);
        Point(if cp < 0x10000 then REPLACEMENT else cp, 4)
    else Point(REPLACEMENT, 1)
  }

  lemma SixOf(x: nat)
    requires x < 64
    ensures Six(Byte(0x80 + x)) == x
  {}

  lemma Utf8Two(cp: nat, t: string)
    requires 0x80 <= cp <= 0x7FF
    ensures FromUtf8(ToUtf8(cp) + t) == Point(cp, 2) && |ToUtf8(cp)| == 2
  {
    SixOf(cp % 64);
    var s := ToUtf8(cp) + t;
    assert s[0] == Byte(0xC0 + cp / 64) && s[1] == Byte(0x80 + cp % 64);
    assert cp == cp / 64 * 64 + cp % 64;
  }

  lemma ThreeParts(cp: nat)
    requires 0x800 <= cp <= 0xFFFF
    ensures cp / 4096 % 16 == cp / 4096 && cp == cp / 4096 * 4096 + cp / 64 % 64 * 64 + cp % 64
  {
    assert cp == cp / 64 * 64 + cp % 64;
    assert cp / 64 == cp / 4096 * 64 + cp / 64 % 64;
  }

  /** Decoding three bytes, from the bits they carry. */
  lemma ThreeBytes(a: nat, b: nat, c: nat, t: string)
    requires a < 16 && b < 64 && c < 64 && a * 4096 + b * 64 + c >= 0x800 && Scalar(a * 4096 + b * 64 + c)
    ensures FromUtf8([Byte(0xE0 + a), Byte(0x80 + b), Byte(0x80 + c)] + t) == Point(a * 4096 + b * 64 + c, 3)
  {
    hide Six;
    SixOf(b);
    SixOf(c);
    var s := [Byte(0xE0 + a), Byte(0x80 + b), Byte(0x80 + c)] + t;
    assert s[0] as int == 0xE0 + a && s[1] == Byte(0x80 + b) && s[2] == Byte(0x80 + c);
  }

  lemma Utf8Three(cp: nat, t: string)
    requires 0x800 <= cp <= 0xFFFF && Scalar(cp)
    ensures FromUtf8(ToUtf8(cp) + t) == Point(cp, 3) && |ToUtf8(cp)| == 3
  {
    hide FromUtf8;
    ThreeParts(cp);
    ThreeBytes(cp / 4096, cp / 64 % 64, cp % 64, t);
  }

  lemma FourParts(cp: nat)
    requires 0x10000 <= cp <= 0x10FFFF
    ensures cp / 262144 % 8 == cp / 262144 <= 4
    ensures cp == cp / 262144 * 262144 + cp / 4096 % 64 * 4096 + cp / 64 % 64 * 64 + cp % 64
  {
    assert cp == cp / 64 * 64 + cp % 64;
    assert cp / 64 == cp / 4096 * 64 + cp / 64 % 64;
    assert cp / 4096 == cp / 262144 * 64 + cp / 4096 % 64;
  }

  /** Decoding four bytes, from the bits they carry. */
  lemma FourBytes(a: nat, b: nat, c: nat, d: nat, t: string)
    requires a < 8 && b < 64 && c < 64 && d < 64 && a * 262144 + b * 4096 + c * 64 + d >= 0x10000
    ensures FromUtf8([Byte(0xF0 + a), Byte(0x80 + b), Byte(0x80 + c), Byte(0x80 + d)] + t)
         == Point(a * 262144 + b * 4096 + c * 64 + d, 4)
  {
    hide Six;
    SixOf(b);
    SixOf(c);
    SixOf(d);
    var s := [Byte(0xF0 + a), Byte(0x80 + b), Byte(0x80 + c), Byte(0x80 + d)] + t;
    assert s[0] as int == 0xF0 + a && s[1] == Byte(0x80 + b) && s[2] == Byte(0x80 + c) && s[3] == Byte(0x80 + d);
  }

  lemma Utf8Four(cp: nat, t: string)
    requires 0x10000 <= cp <= 0x10FFFF
    ensures FromUtf8(ToUtf8(cp) + t) == Point(cp, 4) && |ToUtf8(cp)| == 4
  {
    hide FromUtf8;
    FourParts(cp);
    FourBytes(cp / 262144, cp / 4096 % 64, cp / 64 % 64, cp % 64, t);
  }

  /** Decoding inverts encoding on every scalar value. */
  lemma Utf8RoundTrip(cp: nat, t: string)
    requires Scalar(cp)
    ensures FromUtf8(ToUtf8(cp) + t) == Point(cp, |ToUtf8(cp)|)
  {
    if cp <= 0x7F {
      assert (ToUtf8(cp) + t)[0] == Byte(cp);
    } else if cp <= 0x7FF {
      Utf8Two(cp, t);
    } else if cp <= 0xFFFF {
      Utf8Three(cp, t);
    } else {
      Utf8Four(cp, t);
    }
  }

  // ---------------------------------------------------------------- hexadecimal escapes

  function HexChar(d: nat): char
    requires d < 16
  {
    if d < 10 then '0' + d as char else 'a' + (d - 10) as char
  }

  /** `toHex16Bit`. */
  function Hex16(x: nat): string {
    [HexChar(x / 4096 % 16), HexChar(x / 256 % 16), HexChar(x / 16 % 16), HexChar(x % 16)]
  }

  /** `decodeUnicodeEscapeSequence` on the text after the `\u`. */
  function Hex4(t: string): (r: Option<nat>)
    ensures r.Some? ==> r.value <= 0xFFFF && |t| >= 4
  {
    if |t| >= 4 && Unhex(t[0]) >= 0 && Unhex(t[1]) >= 0 && Unhex(t[2]) >= 0 && Unhex(t[3]) >= 0
    then Some(((Unhex(t[0]) * 16 + Unhex(t[1])) * 16 + Unhex(t[2])) * 16 + Unhex(t[3]))
    else None
  }

  lemma HexCharMeans(d: nat)
    requires d < 16
    ensures Unhex(HexChar(d)) == d && HexChar(d) != '"' && HexChar(d) != '\\'
  {}

  lemma HexParts(x: nat)
    requires x <= 0xFFFF
    ensures ((x / 4096 % 16 * 16 + x / 256 % 16) * 16 + x / 16 % 16) * 16 + x % 16 == x
  {
    assert x == x / 16 * 16 + x % 16;
    assert x / 16 == x / 256 * 16 + x / 16 % 16;
    assert x / 256 == x / 4096 * 16 + x / 256 % 16;
  }

  lemma FourHex(a: nat, b: nat, c: nat, d: nat, t: string)
    requires a < 16 && b < 16 && c < 16 && d < 16
    ensures Hex4([HexChar(a), HexChar(b), HexChar(c), HexChar(d)] + t) == Some(((a * 16 + b) * 16 + c) * 16 + d)
  {
    hide Unhex, HexChar;
    HexCharMeans(a);
    HexCharMeans(b);
    HexCharMeans(c);
    HexCharMeans(d);
  }

  lemma HexRoundTrip(x: nat, t: string)
    requires x <= 0xFFFF
    ensures Hex4(Hex16(x) + t) == Some(x)
  {
    hide Hex4, HexChar;
    HexParts(x);
    FourHex(x / 4096 % 16, x / 256 % 16, x / 16 % 16, x % 16, t);
  }

  function Escape(x: nat): string { "\\u" + Hex16(x) }

  /** The 20 bits of a surrogate pair. */
  function PairValue(high: nat, low: nat): (cp: nat)
    ensures 0x10000 <= cp <= 0x10FFFF
  {
    0x10000 + high % 1024 * 1024 + low % 1024
  }

  /** The code point of one escape, or of the two escapes of a surrogate pair: the second half is
      not checked to be one. */
  function DecodePoint(t: string): (r: Option<Point>)
    ensures r.Some? ==> r.value.len <= |t| && r.value.len >= 4 && r.value.cp <= 0x10FFFF
  {
    var first := Hex4(t);
    if first.None? then None
    else if 0xD800 <= first.value <= 0xDBFF then
      if |t| < 10 || t[4] != '\\' || t[5] != 'u' || Hex4(t[6..]).None? then None
      else Some(Point(PairValue(first.value, Hex4(t[6..]).value), 10))
    else Some(Point(first.value, 4))
  }

  /** What a code point beyond the Unicode range becomes when 20 bits of it are kept. */
  function Fixed(cp: nat): nat { if cp < 0x10000 then cp else 0x10000 + (cp - 0x10000) % 0x10_0000 }

  /** The two halves for the 20 bits of `cp`. */
  function SurrogatePair(cp: nat): string
    requires cp >= 0x10000
  {
    Escape(0xD800 + (cp - 0x10000) / 1024 % 1024) + Escape(0xDC00 + (cp - 0x10000) % 1024)
  }

  lemma EscapeRoundTrip(x: nat, t: string)
    requires x <= 0xFFFF && !(0xD800 <= x <= 0xDBFF)
    ensures DecodePoint(Hex16(x) + t) == Some(Point(x, 4))
  {
    HexRoundTrip(x, t);
  }

  lemma PairBits(x: nat)
    ensures (0xD800 + x / 1024 % 1024) % 1024 == x / 1024 % 1024 && (0xDC00 + x % 1024) % 1024 == x % 1024
    ensures x / 1024 % 1024 * 1024 + x % 1024 == x % 0x10_0000
  {
    assert x == x / 1024 * 1024 + x % 1024;
    assert x / 1024 == x / 0x10_0000 * 1024 + x / 1024 % 1024;
  }

  lemma PairRoundTrip(cp: nat, t: string)
    requires cp >= 0x10000
    ensures |SurrogatePair(cp)| == 12 && SurrogatePair(cp)[..2] == "\\u" && DecodePoint(SurrogatePair(cp)[2..] + t) == Some(Point(Fixed(cp), 10))
  {
    hide DecodePoint, Escape;
    var x := cp - 0x10000;
    PairBits(x);
    PairDecodes(0xD800 + x / 1024 % 1024, 0xDC00 + x % 1024, t);
  }

  lemma PairDecodes(hi: nat, lo: nat, t: string)
    requires 0xD800 <= hi <= 0xDBFF && 0xDC00 <= lo <= 0xDFFF
    ensures |Escape(hi) + Escape(lo)| == 12 && (Escape(hi) + Escape(lo))[..2] == "\\u"
    ensures DecodePoint((Escape(hi) + Escape(lo))[2..] + t) == Some(Point(PairValue(hi, lo), 10))
  {
    hide Hex4, Hex16;
    HexRoundTrip(hi, Escape(lo) + t);
    HexRoundTrip(lo, t);
    HexLength(hi);
    HexLength(lo);
    var s := (Escape(hi) + Escape(lo))[2..] + t;
    assert s == Hex16(hi) + (Escape(lo) + t);
    assert s[4] == '\\' && s[5] == 'u' && s[6..] == Hex16(lo) + t;
  }

  lemma HexLength(x: nat)
    ensures |Hex16(x)| == 4
  {}
}
