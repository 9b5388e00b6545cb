/** The spellings of a string, section 7 of RFC 8259: every spelling is decoded as what it spells, and
    nothing else is decoded. And which of the spellings the writer chooses. */
module JsonSpelling {
  import opened HttpTypes
  import opened Options
  import opened JsonUnicode
  import opened JsonQuoting

  // ---------------------------------------------------------------- code points as bytes

  predicate Tail(c: char) { 0x80 <= c as int < 0xC0 }

  /** `s` is the UTF-8 text of `cp`, section 3 of RFC 3629; surrogates included. */
  predicate Encodes(s: string, cp: nat) {
    if cp < 0x80 then |s| == 1 && s[0] as int == cp
    else if cp < 0x800 then |s| == 2 && Tail(s[1]) && cp == (s[0] as int - 0xC0) * 64 + (s[1] as int - 0x80)
    else if cp < 0x1_0000 then
      |s| == 3 && Tail(s[1]) && Tail(s[2])
      && cp == (s[0] as int - 0xE0) * 4096 + (s[1] as int - 0x80) * 64 + (s[2] as int - 0x80)
    else
      |s| == 4 && Tail(s[1]) && Tail(s[2]) && Tail(s[3])
      && cp == (s[0] as int - 0xF0) * 262144 + (s[1] as int - 0x80) * 4096 + (s[2] as int - 0x80) * 64 + (s[3] as int - 0x80)
  }

  lemma SplitSix(x: nat)
    ensures x == x / 64 * 64 + x % 64
  {}

  lemma UniqueSix(x: int, y: nat, x': int, y': nat)
    requires y < 64 && y' < 64 && x * 64 + y == x' * 64 + y'
    ensures x == x' && y == y'
  {}

  lemma EncodesTwo(cp: nat, s: string)
    requires 0x80 <= cp < 0x800
    ensures Encodes(s, cp) <==> s == ToUtf8(cp)
  {
    SplitSix(cp);
    if Encodes(s, cp) { UniqueSix(s[0] as int - 0xC0, s[1] as int - 0x80, cp / 64, cp % 64); }
  }

  lemma EncodesThree(cp: nat, s: string)
    requires 0x800 <= cp < 0x1_0000
    ensures Encodes(s, cp) <==> s == ToUtf8(cp)
  {
    SplitSix(cp);
    SplitSix(cp / 64);
    assert cp / 64 / 64 == cp / 4096;
    if Encodes(s, cp) {
      var a, b, c := s[0] as int - 0xE0, s[1] as int - 0x80, s[2] as int - 0x80;
      UniqueSix(a * 64 + b, c, cp / 64, cp % 64);
      UniqueSix(a, b, cp / 4096, cp / 64 % 64);
    }
  }

  lemma FourSixes(cp: nat)
    ensures cp == cp / 262144 * 262144 + cp / 4096 % 64 * 4096 + cp / 64 % 64 * 64 + cp % 64
  {
    SplitSix(cp);
    SplitSix(cp / 64);
    SplitSix(cp / 4096);
    assert cp / 64 / 64 == cp / 4096 && cp / 4096 / 64 == cp / 262144;
  }

  lemma UniqueFour(cp: nat, a: int, b: nat, c: nat, d: nat)
    requires b < 64 && c < 64 && d < 64 && cp == a * 262144 + b * 4096 + c * 64 + d
    ensures a == cp / 262144 && b == cp / 4096 % 64 && c == cp / 64 % 64 && d == cp % 64
  {
    FourSixes(cp);
    UniqueSix((a * 64 + b) * 64 + c, d, cp / 64, cp % 64);
    UniqueSix(a * 64 + b, c, cp / 4096, cp / 64 % 64);
    UniqueSix(a, b, cp / 262144, cp / 4096 % 64);
  }

  lemma EncodesFour(cp: nat, s: string)
    requires 0x1_0000 <= cp <= 0x10_FFFF
    ensures Encodes(s, cp) <==> s == ToUtf8(cp)
  {
    FourSixes(cp);
    if Encodes(s, cp) { UniqueFour(cp, s[0] as int - 0xF0, s[1] as int - 0x80, s[2] as int - 0x80, s[3] as int - 0x80); }
  }

  /** `codePointToUTF8` is UTF-8. */
  lemma EncodesExactly(cp: nat, s: string)
    requires cp <= 0x10_FFFF
    ensures Encodes(s, cp) <==> s == ToUtf8(cp)
  {
    if 0x80 <= cp {
      hide Encodes, ToUtf8;
      if cp < 0x800 { EncodesTwo(cp, s); } else if cp < 0x1_0000 { EncodesThree(cp, s); } else { EncodesFour(cp, s); }
    }
  }

  // ---------------------------------------------------------------- spellings

  /** A piece of a spelling: a character for itself, a short escape, or one or two escapes by number. The
      reader takes any number for the second half of a surrogate pair. */
  datatype Piece = Plain(c: char) | Short(letter: char) | Code(digits: string) | Pair(high: string, low: string)

  /** The short escapes: the letter after the backslash, and the byte it stands for. */
  const SHORT_ESCAPES: seq<(char, nat)> :=
    [('"', 0x22), ('\\', 0x5C), ('/', 0x2F), ('b', 0x08), ('f', 0x0C), ('n', 0x0A), ('r', 0x0D), ('t', 0x09)]

  predicate ShortFor(letter: char, b: nat) { (letter, b) in SHORT_ESCAPES }

  const LOWER_DIGITS := "0123456789abcdef"
  const UPPER_DIGITS := "0123456789ABCDEF"

  predicate DigitIs(c: char, d: nat) { d < 16 && (c == LOWER_DIGITS[d] || c == UPPER_DIGITS[d]) }

  /** `t` is the number in four hexadecimal digits, of either case. */
  predicate NumberIs(t: string, x: nat) {
    |t| == 4 && x < 0x1_0000
    && DigitIs(t[0], x / 4096) && DigitIs(t[1], x / 256 % 16) && DigitIs(t[2], x / 16 % 16) && DigitIs(t[3], x % 16)
  }

  predicate HighHalf(x: nat) { 0xD800 <= x <= 0xDBFF }

  /** What a piece is spelled as. */
  function PieceText(p: Piece): string {
    match p
    case Plain(c) => [c]
    case Short(letter) => ['\\', letter]
    case Code(digits) => "\\u" + digits
    case Pair(high, low) => "\\u" + high + "\\u" + low
  }

  /** `bytes` is what the piece stands for. */
  ghost predicate Means(p: Piece, bytes: string) {
    match p
    case Plain(c) => c != '"' && c != '\\' && bytes == [c]
    case Short(letter) => |bytes| == 1 && ShortFor(letter, bytes[0] as nat)
    case Code(digits) => exists x: nat :: NumberIs(digits, x) && !HighHalf(x) && Encodes(bytes, x)
    case Pair(high, low) =>
      exists x: nat, y: nat :: NumberIs(high, x) && HighHalf(x) && NumberIs(low, y)
                     && Encodes(bytes, 0x1_0000 + (x - 0xD800) * 0x400 + y % 0x400)
  }

  function Text(ps: seq<Piece>): string { if ps == [] then "" else PieceText(ps[0]) + Text(ps[1..]) }

  /** `s` is spelled by the pieces. */
  ghost predicate Spells(ps: seq<Piece>, s: string)
    decreases ps
  {
    if ps == [] then s == ""
    else exists n :: 0 <= n <= |s| && Means(ps[0], s[..n]) && Spells(ps[1..], s[n..])
  }

  // ---------------------------------------------------------------- pieces

  lemma DigitValues(c: char, d: nat)
    ensures DigitIs(c, d) <==> Unhex(c) == d
  {
    if d < 16 {
      assert LOWER_DIGITS[d] == if d < 10 then '0' + d as char else 'a' + (d - 10) as char;
      assert UPPER_DIGITS[d] == if d < 10 then '0' + d as char else 'A' + (d - 10) as char;
    }
  }

  lemma NumberDigits(t: string, x: nat)
    requires |t| >= 4
    ensures NumberIs(t[..4], x) <==> Hex4(t) == Some(x)
  {
    hide DigitIs, Unhex;
    HexDigits(t);
    if x < 0x1_0000 {
      DigitValues(t[0], x / 4096);
      DigitValues(t[1], x / 256 % 16);
      DigitValues(t[2], x / 16 % 16);
      DigitValues(t[3], x % 16);
      HexParts(x);
    }
    if Hex4(t) == Some(x) { FourDigits(Unhex(t[0]), Unhex(t[1]), Unhex(t[2]), Unhex(t[3])); }
  }

  lemma HexDigits(t: string)
    ensures forall i | 0 <= i < |t| :: Unhex(t[i]) < 16
  {}

  lemma FourDigits(a: nat, b: nat, c: nat, d: nat)
    requires a < 16 && b < 16 && c < 16 && d < 16
    ensures var x := ((a * 16 + b) * 16 + c) * 16 + d; x / 4096 == a && x / 256 % 16 == b && x / 16 % 16 == c && x % 16 == d
  {
    var x := ((a * 16 + b) * 16 + c) * 16 + d;
    assert x / 16 == (a * 16 + b) * 16 + c;
    assert x / 256 == a * 16 + b && x / 4096 == a;
  }

  lemma ShortTable(letter: char, b: char)
    ensures ShortFor(letter, b as nat) <==> Unescape(letter) == Some(b)
  {}

  lemma ShortDecoded(letter: char, bytes: string, t: string)
    requires Means(Short(letter), bytes)
    ensures Decoded(PieceText(Short(letter)) + t) == After(bytes, Decoded(t))
  {
    var u := ['\\', letter] + t;
    ShortTable(letter, bytes[0]);
    assert u[2..] == t && bytes == [bytes[0]];
    assert letter != 'u' by { assert !ShortFor('u', bytes[0] as nat); }
  }

  lemma CodeDecoded(digits: string, bytes: string, t: string)
    requires Means(Code(digits), bytes)
    ensures Decoded(PieceText(Code(digits)) + t) == After(bytes, Decoded(t))
  {
    hide NumberIs, Hex4, Encodes, ToUtf8;
    var x: nat :| NumberIs(digits, x) && !HighHalf(x) && Encodes(bytes, x);
    assert |digits| == 4 && x < 0x1_0000 by { NumberLength(digits, x); }
    var u := PieceText(Code(digits)) + t;
    assert u == ['\\', 'u'] + (digits + t);
    assert u[2..] == digits + t && (digits + t)[..4] == digits && u[6..] == t;
    NumberDigits(digits + t, x);
    EncodesExactly(x, bytes);
  }

  lemma NumberLength(t: string, x: nat)
    requires NumberIs(t, x)
    ensures |t| == 4 && x < 0x1_0000
  {}

  lemma HalvesDecoded(high: string, low: string, bytes: string, t: string)
    requires Means(Pair(high, low), bytes)
    ensures Decoded(PieceText(Pair(high, low)) + t) == After(bytes, Decoded(t))
  {
    hide NumberIs, Hex4, Encodes, ToUtf8;
    var x: nat, y: nat :| NumberIs(high, x) && HighHalf(x) && NumberIs(low, y)
                          && Encodes(bytes, 0x1_0000 + (x - 0xD800) * 0x400 + y % 0x400);
    NumberLength(high, x);
    NumberLength(low, y);
    var u := PieceText(Pair(high, low)) + t;
    var rest := high + ("\\u" + (low + t));
    assert u == ['\\', 'u'] + rest;
    assert u[2..] == rest && rest[..4] == high && rest[4] == '\\' && rest[5] == 'u' && rest[6..] == low + t && (low + t)[..4] == low && u[12..] == t;
    NumberDigits(rest, x);
    NumberDigits(low + t, y);
    HalfBits(x);
    EncodesExactly(PairValue(x, y), bytes);
  }

  lemma HalfBits(x: nat)
    requires HighHalf(x)
    ensures x % 1024 == x - 0xD800
  {}

  lemma PieceDecoded(p: Piece, bytes: string, t: string)
    requires Means(p, bytes)
    ensures Decoded(PieceText(p) + t) == After(bytes, Decoded(t))
  {
    match p
    case Plain(c) => PlainDecodes(c, t);
    case Short(letter) => ShortDecoded(letter, bytes, t);
    case Code(digits) => CodeDecoded(digits, bytes, t);
    case Pair(high, low) => HalvesDecoded(high, low, bytes, t);
  }

  // ---------------------------------------------------------------- whole strings

  /** Every spelling of a string is decoded as the string. */
  lemma {:induction false} SpellingDecoded(ps: seq<Piece>, s: string)
    requires Spells(ps, s)
    ensures Decoded(Text(ps)) == Some(s)
    decreases ps
  {
    hide Means, PieceText, Decoded;
    if ps == [] {
      DecodedNothing();
    } else {
      var n: nat :| n <= |s| && Means(ps[0], s[..n]) && Spells(ps[1..], s[n..]);
      SpellingDecoded(ps[1..], s[n..]);
      PieceDecoded(ps[0], s[..n], Text(ps[1..]));
      assert s == s[..n] + s[n..];
    }
  }

  lemma SpellsMore(p: Piece, ps: seq<Piece>, bytes: string, s: string)
    requires Means(p, bytes) && Spells(ps, s)
    ensures Spells([p] + ps, bytes + s) && Text([p] + ps) == PieceText(p) + Text(ps)
  {
    hide Means;
    assert ([p] + ps)[1..] == ps && (bytes + s)[..|bytes|] == bytes && (bytes + s)[|bytes|..] == s;
  }

  /** The first piece of a text that is decoded. */
  lemma FirstPiece(t: string) returns (p: Piece, bytes: string, n: nat)
    requires t != "" && t[0] != '"' && Decoded(t).Some?
    ensures 0 < n <= |t| && PieceText(p) == t[..n] && Means(p, bytes) && Decoded(t) == After(bytes, Decoded(t[n..]))
  {
    hide Hex4, ToUtf8, NumberIs, Encodes;
    if t[0] != '\\' {
      p, bytes, n := Plain(t[0]), [t[0]], 1;
    } else if t[1] != 'u' {
      p, bytes, n := Short(t[1]), [Unescape(t[1]).value], 2;
      ShortTable(t[1], Unescape(t[1]).value);
    } else {
      var u := t[2..];
      var q := DecodePoint(u).value;
      bytes, n := ToUtf8(q.cp), 2 + q.len;
      EncodesExactly(q.cp, bytes);
      var x := Hex4(u).value;
      NumberDigits(u, x);
      if HighHalf(x) {
        var y := Hex4(u[6..]).value;
        NumberDigits(u[6..], y);
        HalfBits(x);
        p := Pair(u[..4], u[6..][..4]);
        assert t[..n] == ['\\', 'u'] + u[..4] + ['\\', 'u'] + u[6..10];
      } else {
        p := Code(u[..4]);
        assert t[..n] == ['\\', 'u'] + u[..4];
      }
    }
  }

  /** Nothing else is decoded. */
  lemma {:induction false} DecodedSpelled(t: string) returns (ps: seq<Piece>)
    requires Escaped(t) && Decoded(t).Some?
    ensures Text(ps) == t && Spells(ps, Decoded(t).value)
    decreases |t|
  {
    hide Means, PieceText, Decoded;
    if t == "" {
      DecodedNothing();
      ps := [];
    } else {
      var p, bytes, n := FirstPiece(t);
      PieceEscaped(t, p, bytes, n);
      var rest := DecodedSpelled(t[n..]);
      SpellsMore(p, rest, bytes, Decoded(t[n..]).value);
      ps := [p] + rest;
      assert t == t[..n] + t[n..];
    }
  }

  lemma {:induction false} PlainDropped(d: string, r: string)
    requires Escaped(d + r) && forall c <- d :: c != '\\' && c != '"'
    ensures Escaped(r)
    decreases |d|
  {
    if d == "" {
      assert d + r == r;
    } else {
      assert d[0] in d && forall c <- d[1..] :: c in d;
      assert (d + r)[1..] == d[1..] + r;
      PlainDropped(d[1..], r);
    }
  }

  lemma DigitsPlain(t: string, x: nat)
    requires NumberIs(t, x)
    ensures forall c <- t :: c != '\\' && c != '"'
  {
    forall c <- t
      ensures c != '\\' && c != '"'
    {
      assert c == t[0] || c == t[1] || c == t[2] || c == t[3];
      assert Unhex(c) >= 0 by {
        DigitValues(t[0], x / 4096);
        DigitValues(t[1], x / 256 % 16);
        DigitValues(t[2], x / 16 % 16);
        DigitValues(t[3], x % 16);
      }
    }
  }

  lemma EscapeDropped(digits: string, x: nat, r: string)
    requires Escaped("\\u" + digits + r) && NumberIs(digits, x)
    ensures Escaped(r)
  {
    hide NumberIs;
    DigitsPlain(digits, x);
    assert ("\\u" + digits + r)[2..] == digits + r;
    PlainDropped(digits, r);
  }

  /** What is left after a piece has its quotes escaped as well. */
  lemma PieceEscaped(t: string, p: Piece, bytes: string, n: nat)
    requires Escaped(t) && 0 < n <= |t| && PieceText(p) == t[..n] && Means(p, bytes)
    ensures Escaped(t[n..])
  {
    hide Encodes, NumberIs, Escaped;
    var r := t[n..];
    assert t == PieceText(p) + r;
    match p
    case Plain(c) => OneDropped(c, r);
    case Short(letter) => TwoDropped(letter, r);
    case Code(digits) =>
      var x: nat :| NumberIs(digits, x);
      EscapeDropped(digits, x, r);
    case Pair(high, low) =>
      var x: nat, y: nat :| NumberIs(high, x) && NumberIs(low, y);
      assert t == "\\u" + high + ("\\u" + low + r);
      EscapeDropped(high, x, "\\u" + low + r);
      EscapeDropped(low, y, r);
  }

  lemma OneDropped(c: char, r: string)
    requires Escaped([c] + r) && c != '\\'
    ensures Escaped(r)
  {
    assert ([c] + r)[1..] == r;
  }

  lemma TwoDropped(c: char, r: string)
    requires Escaped(['\\', c] + r)
    ensures Escaped(r)
  {
    assert (['\\', c] + r)[2..] == r;
  }

  /** Exactly the spellings of a string are decoded as that string. */
  lemma SpelledExactly(t: string, s: string)
    requires Escaped(t)
    ensures Decoded(t) == Some(s) <==> exists ps :: Text(ps) == t && Spells(ps, s)
  {
    hide Decoded, Spells, Text, Escaped;
    if Decoded(t) == Some(s) {
      var ps := DecodedSpelled(t);
      assert Text(ps) == t && Spells(ps, s);
    }
    if ps :| Text(ps) == t && Spells(ps, s) { SpellingDecoded(ps, s); }
  }

  // ---------------------------------------------------------------- the writer's choice

  /** `t` is the number in four lower-case digits. */
  predicate LowerNumber(t: string, x: nat) {
    |t| == 4 && x < 0x1_0000
    && t[0] == LOWER_DIGITS[x / 4096] && t[1] == LOWER_DIGITS[x / 256 % 16]
    && t[2] == LOWER_DIGITS[x / 16 % 16] && t[3] == LOWER_DIGITS[x % 16]
  }

  /** The characters that get a short escape: all of the table but the slash. */
  predicate Shortened(cp: nat) { cp in {0x22, 0x5C, 0x08, 0x0C, 0x0A, 0x0D, 0x09} }

  /** The piece written for a code point: short if there is a short escape, itself if it is visible ASCII, a
      space or DEL, and by number otherwise. */
  predicate Chosen(p: Piece, cp: nat) {
    if Shortened(cp) then p.Short? && ShortFor(p.letter, cp)
    else if 0x20 <= cp < 0x80 then p == Plain(cp as char)
    else if cp < 0x1_0000 then p.Code? && LowerNumber(p.digits, cp)
    else p.Pair? && HalvesAre(p.high, p.low, (cp - 0x1_0000) % 0x10_0000)
  }

  /** The two halves of 20 bits. */
  predicate HalvesAre(high: string, low: string, bits: nat)
    requires bits < 0x10_0000
  {
    LowerNumber(high, 0xD800 + bits / 0x400) && LowerNumber(low, 0xDC00 + bits % 0x400)
  }

  /** The piece written for a byte when UTF-8 is kept: only control characters go by number. */
  predicate ByteChosen(p: Piece, c: char) {
    if Shortened(c as nat) then p.Short? && ShortFor(p.letter, c as nat)
    else if c as nat < 0x20 then p.Code? && LowerNumber(p.digits, c as nat)
    else p == Plain(c)
  }

  lemma LowerDigits(x: nat)
    requires x < 0x1_0000
    ensures LowerNumber(Hex16(x), x)
  {
    assert forall d: nat | d < 16 :: HexChar(d) == LOWER_DIGITS[d];
  }

  lemma ShortChosen(c: char)
    ensures Shortened(c as nat) <==> ShortEscape(c) != ""
    ensures Shortened(c as nat) ==> |ShortEscape(c)| == 2 && ShortEscape(c)[0] == '\\' && ShortFor(ShortEscape(c)[1], c as nat)
  {}

  lemma HalvesOf(x: nat)
    ensures x / 1024 % 1024 == x % 0x10_0000 / 1024 && x % 1024 == x % 0x10_0000 % 1024
  {
    assert x == x / 0x10_0000 * 0x10_0000 + x % 0x10_0000;
    var y := x % 0x10_0000;
    assert x / 1024 == x / 0x10_0000 * 1024 + y / 1024;
  }

  lemma HalvesWritten(x: nat)
    ensures HalvesAre(Hex16(0xD800 + x / 1024 % 1024), Hex16(0xDC00 + x % 1024), x % 0x10_0000)
  {
    hide Hex16, LowerNumber;
    HalvesOf(x);
    LowerDigits(0xD800 + x / 1024 % 1024);
    LowerDigits(0xDC00 + x % 1024);
  }

  lemma HalvesChosen(cp: nat) returns (p: Piece)
    requires cp >= 0x1_0000
    ensures PieceText(p) == SurrogatePair(cp) && Chosen(p, cp)
  {
    hide Hex16, HalvesAre, ShortFor;
    var x := cp - 0x1_0000;
    HalvesWritten(x);
    p := Pair(Hex16(0xD800 + x / 1024 % 1024), Hex16(0xDC00 + x % 1024));
    FourLong(0xD800 + x / 1024 % 1024, 0xDC00 + x % 1024);
  }

  lemma FourLong(high: nat, low: nat)
    ensures PieceText(Pair(Hex16(high), Hex16(low))) == Escape(high) + Escape(low)
  {
    hide Hex16;
  }

  lemma PointChosen(cp: nat) returns (p: Piece)
    ensures PieceText(p) == QuotePoint(cp) && Chosen(p, cp)
  {
    if cp < 0x80 {
      p := AsciiChosen(cp);
    } else if cp < 0x1_0000 {
      hide Hex16, LowerNumber, ShortFor;
      LowerDigits(cp);
      p := Code(Hex16(cp));
    } else {
      hide Chosen, SurrogatePair;
      p := HalvesChosen(cp);
    }
  }

  lemma AsciiChosen(cp: nat) returns (p: Piece)
    requires cp < 0x80
    ensures PieceText(p) == QuotePoint(cp) && Chosen(p, cp)
  {
    hide Hex16, LowerNumber, ShortFor, ShortEscape;
    ShortChosen(cp as char);
    if Shortened(cp) {
      p := Short(ShortEscape(cp as char)[1]);
    } else if 0x20 <= cp {
      p := Plain(cp as char);
    } else {
      LowerDigits(cp);
      p := Code(Hex16(cp));
    }
  }

  lemma ByteIsChosen(c: char) returns (p: Piece)
    ensures PieceText(p) == QuoteByte(c) && ByteChosen(p, c)
  {
    hide Hex16, LowerNumber, ShortFor;
    ShortChosen(c);
    if Shortened(c as nat) {
      p := Short(ShortEscape(c)[1]);
    } else if c as nat < 0x20 {
      LowerDigits(c as nat);
      p := Code(Hex16(c as nat));
    } else {
      p := Plain(c);
    }
  }

  /** Keeping UTF-8, the quotation has one piece for every byte. */
  lemma {:induction false} BytesQuoted(s: string) returns (ps: seq<Piece>)
    ensures Text(ps) == Quoted(s, true) && |ps| == |s| && forall i | 0 <= i < |s| :: ByteChosen(ps[i], s[i])
    decreases |s|
  {
    hide PieceText, QuoteByte, ByteChosen;
    if s == "" {
      ps := [];
    } else {
      var p := ByteIsChosen(s[0]);
      var rest := BytesQuoted(s[1..]);
      ps := [p] + rest;
      assert ps[1..] == rest;
    }
  }

  /** By default, the quotation of a UTF-8 text has one piece for every code point. */
  lemma {:induction false} PointsQuoted(cps: seq<nat>) returns (ps: seq<Piece>)
    requires Scalars(cps)
    ensures Text(ps) == Quoted(Utf8(cps), false) && |ps| == |cps| && forall i | 0 <= i < |cps| :: Chosen(ps[i], cps[i])
    decreases |cps|
  {
    hide PieceText, QuotePoint, Chosen, FromUtf8, ToUtf8;
    if cps == [] {
      ps := [];
    } else {
      var p := PointChosen(cps[0]);
      assert Scalars(cps[1..]);
      var rest := PointsQuoted(cps[1..]);
      ps := [p] + rest;
      assert ps[1..] == rest;
      var t := Utf8(cps[1..]);
      assert cps[0] in cps;
      Utf8RoundTrip(cps[0], t);
      assert (ToUtf8(cps[0]) + t)[|ToUtf8(cps[0])|..] == t;
    }
  }
}
