/** String quoting: `valueToQuotedStringN`, the scan for the closing quote, and `decodeString`.
    Decoding what was quoted gives the string back, and repairs one that is not UTF-8. */
module JsonQuoting {
  import opened HttpTypes
  import opened Options
  import opened JsonUnicode

  // ---------------------------------------------------------------- quoting

  /** The two-character escapes. */
  function ShortEscape(c: char): string {
    match c
    case '"' => "\\\"" case '\\' => "\\\\"
    case '\n' => "\\n" case '\r' => "\\r" case '\t' => "\\t"
    case _ => if c as int == 8 then "\\b" else if c as int == 12 then "\\f" else ""
  }

  /** A code point in a quoted string. */
  function QuotePoint(cp: nat): string {
    if cp < 0x80 && ShortEscape(cp as char) != "" then ShortEscape(cp as char)
    else if cp < 0x20 then Escape(cp)
    else if cp < 0x80 then [cp as char]
    else if cp < 0x10000 then Escape(cp)
    else SurrogatePair(cp)
  }

  /** A byte in a quoted string that keeps UTF-8 as it is. */
  function QuoteByte(c: char): string {
    if ShortEscape(c) != "" then ShortEscape(c) else if c as int < 0x20 then Escape(c as int) else [c]
  }

  /** The text between the quotes. */
  function Quoted(s: string, emitUtf8: bool): string
    decreases |s|
  {
    if s == "" then ""
    else if emitUtf8 then QuoteByte(s[0]) + Quoted(s[1..], true)
    else var p := FromUtf8(s); QuotePoint(p.cp) + Quoted(s[p.len..], false)
  }

  /** `doesAnyCharRequireEscaping`. */
  predicate NeedsEscaping(s: string) { exists c | c in s :: c == '\\' || c == '"' || c as int < 0x20 || c as int > 0x7F }

  lemma PlainChar(s: string)
    requires s != "" && s[0] != '\\' && s[0] != '"' && 0x20 <= s[0] as int <= 0x7F
    ensures QuoteByte(s[0]) == [s[0]] && FromUtf8(s) == Point(s[0] as int, 1) && QuotePoint(s[0] as int) == [s[0]]
  {
    hide Escape;
  }

  /** The fast path is right: text without special characters is its own quotation. */
  lemma {:induction false} PlainQuoted(s: string, emitUtf8: bool)
    requires !NeedsEscaping(s)
    ensures Quoted(s, emitUtf8) == s
    decreases |s|
  {
    hide QuoteByte, FromUtf8, QuotePoint;
    if s != "" {
      assert s[0] in s && forall c | c in s[1..] :: c in s;
      PlainChar(s);
      PlainQuoted(s[1..], emitUtf8);
      assert s == [s[0]] + s[1..];
    }
  }

  /** The escape for the character at `c`, and the number of bytes it stands for. */
  method QuoteAt(value: string, c: nat, emitUtf8: bool) returns (piece: string, len: nat)
    requires c < |value|
    ensures 1 <= len <= |value| - c
    ensures if emitUtf8 then len == 1 && piece == QuoteByte(value[c])
            else len == FromUtf8(value[c..]).len && piece == QuotePoint(FromUtf8(value[c..]).cp)
  {
    hide Escape, FromUtf8;
    var ch := value[c];
    len := 1;
    if ShortEscape(ch) != "" {
      AsciiPoint(value[c..]);
      piece := ShortEscape(ch);
    } else if emitUtf8 {
      piece := if ch as int < 0x20 then Escape(ch as int) else [ch];
    } else {
      PointAscii(value[c..]);
      var p := FromUtf8(value[c..]);
      len := p.len;
      if p.cp < 0x20 {
        piece := Escape(p.cp);
      } else if p.cp < 0x80 {
        piece := [p.cp as char];
      } else if p.cp < 0x10000 {
        piece := Escape(p.cp);
      } else {
        var low := p.cp - 0x10000;
        piece := Escape(0xD800 + low / 1024 % 1024) + Escape(0xDC00 + low % 1024);
      }
    }
  }

  /** `valueToQuotedStringN`. */
  method ValueToQuotedString(value: string, emitUtf8: bool) returns (result: string)
    ensures result == "\"" + Quoted(value, emitUtf8) + "\""
  {
    hide QuotePoint, QuoteByte, FromUtf8;
    if !NeedsEscaping(value) {
      PlainQuoted(value, emitUtf8);
      return "\"" + value + "\"";
    }
    result := "\"";
    var c := 0;
    assert value[c..] == value;
    while c < |value|
      invariant c <= |value|
      invariant "\"" + Quoted(value, emitUtf8) == result + Quoted(value[c..], emitUtf8)
      decreases |value| - c
    {
      ghost var rest, before := value[c..], result;
      var piece, len := QuoteAt(value, c, emitUtf8);
      result := result + piece;
      QuotedStep(rest, emitUtf8, before, result, len);
      assert rest[len..] == value[c + len..];
      c := c + len;
    }
    assert value[c..] == "";
    result := result + "\"";
  }

  /** An escaped character is a code point of its own. */
  lemma AsciiPoint(s: string)
    requires s != "" && ShortEscape(s[0]) != ""
    ensures FromUtf8(s) == Point(s[0] as int, 1)
  {}

  lemma PointAscii(s: string)
    requires s != "" && ShortEscape(s[0]) == ""
    ensures FromUtf8(s).cp < 0x80 ==> FromUtf8(s) == Point(s[0] as int, 1) && ShortEscape(FromUtf8(s).cp as char) == ""
  {}

  lemma QuotedStep(rest: string, emitUtf8: bool, before: string, result: string, len: nat)
    requires rest != "" && 1 <= len <= |rest|
    requires if emitUtf8 then len == 1 && result == before + QuoteByte(rest[0])
             else len == FromUtf8(rest).len && result == before + QuotePoint(FromUtf8(rest).cp)
    ensures before + Quoted(rest, emitUtf8) == result + Quoted(rest[len..], emitUtf8)
  {
    hide QuoteByte, QuotePoint, FromUtf8;
  }

  // ---------------------------------------------------------------- finding the closing quote

  /** Text in which every backslash has a character after it, and every quote a backslash before. */
  predicate Escaped(b: string)
    decreases |b|
  {
    b == "" || (if b[0] == '\\' then |b| >= 2 && Escaped(b[2..]) else b[0] != '"' && Escaped(b[1..]))
  }

  lemma {:induction false} EscapedConcat(a: string, b: string)
    requires Escaped(a) && Escaped(b)
    ensures Escaped(a + b)
    decreases |a|
  {
    if a == "" {
      assert a + b == b;
    } else if a[0] == '\\' {
      assert (a + b)[2..] == a[2..] + b;
      EscapedConcat(a[2..], b);
    } else {
      assert (a + b)[1..] == a[1..] + b;
      EscapedConcat(a[1..], b);
    }
  }

  lemma {:induction false} PlainEscaped(s: string)
    requires forall c | c in s :: c != '\\' && c != '"'
    ensures Escaped(s)
    decreases |s|
  {
    if s != "" {
      assert s[0] in s && forall c | c in s[1..] :: c in s;
      PlainEscaped(s[1..]);
    }
  }

  lemma HexEscaped(x: nat)
    ensures Escaped(Escape(x))
  {
    hide HexChar;
    HexCharMeans(x / 4096 % 16);
    HexCharMeans(x / 256 % 16);
    HexCharMeans(x / 16 % 16);
    HexCharMeans(x % 16);
    PlainEscaped(Hex16(x));
    assert Escape(x)[2..] == Hex16(x);
  }

  lemma ShortEscaped(c: char)
    ensures Escaped(ShortEscape(c)) && (ShortEscape(c) == "" ==> c != '"' && c != '\\')
  {
    var s := ShortEscape(c);
    if s != "" { assert s[2..] == ""; }
  }

  lemma PointEscaped(cp: nat)
    ensures Escaped(QuotePoint(cp))
  {
    hide Escape, Escaped, ShortEscape;
    if cp < 0x80 {
      ShortEscaped(cp as char);
      HexEscaped(cp);
      if ShortEscape(cp as char) == "" { PlainEscaped([cp as char]); }
    } else if cp < 0x10000 {
      HexEscaped(cp);
    } else {
      var low := cp - 0x10000;
      HexEscaped(0xD800 + low / 1024 % 1024);
      HexEscaped(0xDC00 + low % 1024);
      EscapedConcat(Escape(0xD800 + low / 1024 % 1024), Escape(0xDC00 + low % 1024));
    }
  }

  lemma ByteEscaped(c: char)
    ensures Escaped(QuoteByte(c))
  {
    hide Escape, Escaped, ShortEscape;
    ShortEscaped(c);
    HexEscaped(c as int);
    if ShortEscape(c) == "" { PlainEscaped([c]); }
  }

  /** A quoted string can only end at its closing quote. */
  lemma {:induction false} QuotedEscaped(s: string, emitUtf8: bool)
    ensures Escaped(Quoted(s, emitUtf8))
    decreases |s|
  {
    hide Escaped, QuotePoint, QuoteByte, FromUtf8;
    if s == "" {
      assert Escaped("") by { PlainEscaped(""); }
    } else if emitUtf8 {
      ByteEscaped(s[0]);
      QuotedEscaped(s[1..], true);
      EscapedConcat(QuoteByte(s[0]), Quoted(s[1..], true));
    } else {
      var p := FromUtf8(s);
      PointEscaped(p.cp);
      QuotedEscaped(s[p.len..], false);
      EscapedConcat(QuotePoint(p.cp), Quoted(s[p.len..], false));
    }
  }

  // ---------------------------------------------------------------- decoding

  /** The character a short escape stands for. */
  function Unescape(c: char): Option<char> {
    match c
    case '"' => Some('"') case '/' => Some('/') case '\\' => Some('\\')
    case 'b' => Some(8 as char) case 'f' => Some(12 as char)
    case 'n' => Some('\n') case 'r' => Some('\r') case 't' => Some('\t')
    case _ => None
  }

  function After(a: string, r: Option<string>): Option<string> {
    if r.Some? then Some(a + r.value) else None
  }

  /** `decodeString` on the text between the quotes; none for a bad escape. */
  function Decoded(t: string): Option<string>
    decreases |t|
  {
    if t == "" || t[0] == '"' then Some("")
    else if t[0] != '\\' then After([t[0]], Decoded(t[1..]))
    else if |t| == 1 then None
    else if t[1] == 'u' then
      var p := DecodePoint(t[2..]);
      if p.None? then None else After(ToUtf8(p.value.cp), Decoded(t[2 + p.value.len..]))
    else
      var c := Unescape(t[1]);
      if c.None? then None else After([c.value], Decoded(t[2..]))
  }

  lemma ShortDecodes(c: char, t: string)
    requires ShortEscape(c) != ""
    ensures Decoded(ShortEscape(c) + t) == After([c], Decoded(t))
  {
    var s := ShortEscape(c) + t;
    assert s[0] == '\\' && s[1] == ShortEscape(c)[1] && s[2..] == t;
    assert s[1] != 'u' && Unescape(s[1]) == Some(c);
  }

  lemma PlainDecodes(c: char, t: string)
    requires c != '"' && c != '\\'
    ensures Decoded([c] + t) == After([c], Decoded(t))
  {
    assert ([c] + t)[1..] == t;
  }

  lemma EscapeDecodes(x: nat, t: string)
    requires x <= 0xFFFF && !(0xD800 <= x <= 0xDBFF)
    ensures Decoded(Escape(x) + t) == After(ToUtf8(x), Decoded(t))
  {
    hide ToUtf8, DecodePoint;
    EscapeRoundTrip(x, t);
    HexLength(x);
    var s := Escape(x) + t;
    assert s[0] == '\\' && s[1] == 'u' && s[2..] == Hex16(x) + t && s[6..] == t;
  }

  lemma PairDecoded(cp: nat, t: string)
    requires cp >= 0x10000
    ensures Decoded(SurrogatePair(cp) + t) == After(ToUtf8(Fixed(cp)), Decoded(t))
  {
    hide ToUtf8, DecodePoint, SurrogatePair, Fixed;
    PairRoundTrip(cp, t);
    var q := SurrogatePair(cp);
    var s := q + t;
    assert s[0] == q[..2][0] == '\\' && s[1] == q[..2][1] == 'u' && s[2..] == q[2..] + t && s[12..] == t;
  }

  /** Every code point the writer sees is decoded, with the range corrected. */
  lemma PointDecodes(cp: nat, t: string)
    requires !(0xD800 <= cp <= 0xDFFF)
    ensures Decoded(QuotePoint(cp) + t) == After(ToUtf8(Fixed(cp)), Decoded(t))
  {
    hide Decoded, Escape, SurrogatePair, ShortEscape;
    if cp < 0x80 {
      if ShortEscape(cp as char) != "" {
        ShortDecodes(cp as char, t);
      } else if cp < 0x20 {
        EscapeDecodes(cp, t);
      } else {
        ShortEscaped(cp as char);
        PlainDecodes(cp as char, t);
      }
    } else if cp < 0x10000 {
      EscapeDecodes(cp, t);
    } else {
      PairDecoded(cp, t);
    }
  }

  lemma ByteDecodes(c: char, t: string)
    ensures Decoded(QuoteByte(c) + t) == After([c], Decoded(t))
  {
    hide Decoded, Escape, ShortEscape;
    ShortEscaped(c);
    if ShortEscape(c) != "" {
      ShortDecodes(c, t);
    } else if c as int < 0x20 {
      EscapeDecodes(c as int, t);
    } else {
      PlainDecodes(c, t);
    }
  }

  // ---------------------------------------------------------------- the round trip

  /** The code points a string is read as, in the range of Unicode. */
  function Points(s: string): seq<nat>
    decreases |s|
  {
    if s == "" then [] else var p := FromUtf8(s); [Fixed(p.cp)] + Points(s[p.len..])
  }

  /** The UTF-8 text of some code points, section 3 of RFC 3629. */
  function Utf8(cps: seq<nat>): string { if cps == [] then "" else ToUtf8(cps[0]) + Utf8(cps[1..]) }

  predicate Scalars(cps: seq<nat>) { forall cp | cp in cps :: Scalar(cp) }

  ghost predicate WellFormed(s: string) { exists cps :: Scalars(cps) && Utf8(cps) == s }

  /** What a string becomes when it is written and read. */
  function Repaired(s: string): string { Utf8(Points(s)) }

  /** Keeping UTF-8, every string of bytes comes back as it was. */
  lemma {:induction false} RawRoundTrip(s: string)
    ensures Decoded(Quoted(s, true)) == Some(s)
    decreases |s|
  {
    hide QuoteByte, Decoded;
    if s == "" {
      assert Decoded("") == Some("") by { DecodedNothing(); }
    } else {
      ByteDecodes(s[0], Quoted(s[1..], true));
      RawRoundTrip(s[1..]);
      assert s == [s[0]] + s[1..];
    }
  }

  lemma DecodedNothing()
    ensures Decoded("") == Some("")
  {}

  /** By default, a string comes back repaired. */
  lemma {:induction false} DefaultRoundTrip(s: string)
    ensures Decoded(Quoted(s, false)) == Some(Repaired(s))
    decreases |s|
  {
    hide QuotePoint, Decoded, FromUtf8, ToUtf8, Fixed;
    if s == "" {
      DecodedNothing();
    } else {
      var p := FromUtf8(s);
      var rest := s[p.len..];
      PointDecodes(p.cp, Quoted(rest, false));
      DefaultRoundTrip(rest);
      assert Points(s)[1..] == Points(rest);
    }
  }

  lemma {:induction false} PointsScalar(s: string)
    ensures Scalars(Points(s))
    decreases |s|
  {
    hide FromUtf8;
    if s != "" { PointsScalar(s[FromUtf8(s).len..]); }
  }

  /** Repairing leaves well-formed UTF-8 alone. */
  lemma {:induction false} WellFormedPoints(cps: seq<nat>)
    requires Scalars(cps)
    ensures Points(Utf8(cps)) == cps
    decreases |cps|
  {
    hide FromUtf8, ToUtf8;
    if cps != [] {
      assert cps[0] in cps && forall cp | cp in cps[1..] :: cp in cps;
      var rest := Utf8(cps[1..]);
      Utf8RoundTrip(cps[0], rest);
      Utf8NotEmpty(cps[0]);
      assert (ToUtf8(cps[0]) + rest)[|ToUtf8(cps[0])|..] == rest;
      WellFormedPoints(cps[1..]);
      assert cps == [cps[0]] + cps[1..];
    }
  }

  lemma Utf8NotEmpty(cp: nat)
    requires Scalar(cp)
    ensures ToUtf8(cp) != ""
  {}

  /** Writing and reading a string: well-formed UTF-8 is the same, anything else becomes well-formed
      UTF-8, and then stays the same. */
  lemma StringRoundTrip(s: string)
    ensures Decoded(Quoted(s, true)) == Some(s)
    ensures Decoded(Quoted(s, false)) == Some(Repaired(s))
    ensures WellFormed(Repaired(s)) && Repaired(Repaired(s)) == Repaired(s)
    ensures WellFormed(s) <==> Repaired(s) == s
  {
    hide Quoted, Decoded, Points, Utf8;
    RawRoundTrip(s);
    DefaultRoundTrip(s);
    PointsScalar(s);
    WellFormedPoints(Points(s));
    if WellFormed(s) {
      var cps :| Scalars(cps) && Utf8(cps) == s;
      WellFormedPoints(cps);
    }
  }
}
