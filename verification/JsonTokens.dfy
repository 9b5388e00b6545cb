/** The tokens of a JSON document: for every position, the token that is read there, comments and
    malformed ones included. */
module JsonTokens {
  import opened Numbers
  import opened HttpTypes
  import opened Options
  import opened JsonQuoting

  /** `OurFeatures`. */
  datatype Features = Features(
    allowComments: bool, allowTrailingCommas: bool, strictRoot: bool, allowDroppedNullPlaceholders: bool,
    allowNumericKeys: bool, allowSingleQuotes: bool, failIfExtra: bool, rejectDupKeys: bool,
    allowSpecialFloats: bool, skipBom: bool, stackLimit: nat)

  datatype TokenKind =
    | EndOfStream | ObjectBegin | ObjectEnd | ArrayBegin | ArrayEnd | StringToken | NumberToken
    | TrueToken | FalseToken | NullToken | NanToken | PosInf | NegInf
    | ArraySeparator | MemberSeparator | CommentToken | ErrorToken

  datatype Token = Token(kind: TokenKind, start: nat, end: nat)

  predicate IsBlank(c: char) { c in {' ', '\t', '\r', '\n'} }

  predicate Blank(s: string) { forall c | c in s :: IsBlank(c) }

  /** `s` stands at `p`. */
  predicate Spells(doc: string, p: nat, s: string) { p + |s| <= |doc| && doc[p..p + |s|] == s }

  /** The character at `p`, NUL at the end. */
  function CharAt(doc: string, p: nat): char { if p < |doc| then doc[p] else '\0' }

  // ---------------------------------------------------------------- scanning

  /** Where the white space from `p` on ends. */
  function SpaceEnd(doc: string, p: nat): (q: nat)
    requires p <= |doc|
    ensures p <= q <= |doc|
    decreases |doc| - p
  {
    if p < |doc| && IsBlank(doc[p]) then SpaceEnd(doc, p + 1) else p
  }

  function DigitsEnd(doc: string, p: nat): (q: nat)
    requires p <= |doc|
    ensures p <= q <= |doc|
    decreases |doc| - p
  {
    if p < |doc| && IsNum(doc[p]) then DigitsEnd(doc, p + 1) else p
  }

  /** After the digits: a fraction, digits optional. */
  function FractionEnd(doc: string, p: nat): (q: nat)
    requires p <= |doc|
    ensures p <= q <= |doc|
  {
    if CharAt(doc, p) == '.' then DigitsEnd(doc, p + 1) else p
  }

  /** After that: an exponent, sign and digits optional. */
  function ExponentEnd(doc: string, p: nat): (q: nat)
    requires p <= |doc|
    ensures p <= q <= |doc|
  {
    if CharAt(doc, p) in {'e', 'E'} then DigitsEnd(doc, if CharAt(doc, p + 1) in {'+', '-'} then p + 2 else p + 1) else p
  }

  /** Where a number ends whose first character is before `p`. */
  function NumberEnd(doc: string, p: nat): (q: nat)
    requires p <= |doc|
    ensures p <= q <= |doc|
  {
    ExponentEnd(doc, FractionEnd(doc, DigitsEnd(doc, p)))
  }

  /** After the closing quote: the first that has no backslash before it. */
  function QuoteEnd(doc: string, p: nat, quote: char): (r: Option<nat>)
    requires p <= |doc|
    ensures r.Some? ==> p < r.value <= |doc|
    decreases |doc| - p
  {
    if p == |doc| then None
    else if doc[p] == '\\' then (if p + 1 == |doc| then None else QuoteEnd(doc, p + 2, quote))
    else if doc[p] == quote then Some(p + 1)
    else QuoteEnd(doc, p + 1, quote)
  }

  /** The star before the slash that ends a comment, or the last character of the document. */
  function StarEnd(doc: string, p: nat): (q: nat)
    requires p <= |doc|
    ensures p <= q <= |doc|
    decreases |doc| - p
  {
    if p + 1 >= |doc| then p
    else if doc[p] == '*' && doc[p + 1] == '/' then p + 1
    else StarEnd(doc, p + 1)
  }

  /** After the end of the line; a carriage return and a line feed count as one. */
  function LineEnd(doc: string, p: nat): (q: nat)
    requires p <= |doc|
    ensures p <= q <= |doc|
    decreases |doc| - p
  {
    if p == |doc| then p
    else if doc[p] == '\n' then p + 1
    else if doc[p] == '\r' then (if CharAt(doc, p + 1) == '\n' then p + 2 else p + 1)
    else LineEnd(doc, p + 1)
  }

  // ---------------------------------------------------------------- tokens

  /** A token from its first character on: its kind, an error for one that is malformed, and its end. */
  datatype Scan = Scan(kind: TokenKind, end: nat)

  function Word(doc: string, p: nat, rest: string, kind: TokenKind): Scan {
    if Spells(doc, p, rest) then Scan(kind, p + |rest|) else Scan(ErrorToken, p)
  }

  function Special(doc: string, p: nat, rest: string, kind: TokenKind, f: Features): Scan {
    if f.allowSpecialFloats then Word(doc, p, rest, kind) else Scan(ErrorToken, p)
  }

  /** A number after its sign, or an infinity. */
  function Signed(doc: string, p: nat, infinity: TokenKind, f: Features): Scan
    requires p <= |doc|
  {
    if CharAt(doc, p) == 'I' then Special(doc, p + 1, "nfinity", infinity, f) else Scan(NumberToken, NumberEnd(doc, p))
  }

  function QuotedScan(doc: string, p: nat, quote: char): Scan
    requires p <= |doc|
  {
    var r := QuoteEnd(doc, p, quote);
    if r.Some? then Scan(StringToken, r.value) else Scan(ErrorToken, |doc|)
  }

  /** A comment after its slash. One that the document cuts off still counts if its last character is
      a slash. */
  function CommentScan(doc: string, p: nat): Scan
    requires p <= |doc|
  {
    if CharAt(doc, p) == '*' then
      var q := StarEnd(doc, p + 1);
      Scan(if CharAt(doc, q) == '/' then CommentToken else ErrorToken, Min(q + 1, |doc|))
    else if CharAt(doc, p) == '/' then Scan(CommentToken, LineEnd(doc, p + 1))
    else Scan(ErrorToken, Min(p + 1, |doc|))
  }

  /** The token that begins with `c` and goes on at `p`. */
  function ScanAfter(doc: string, c: char, p: nat, f: Features): Scan
    requires p <= |doc|
  {
    match c
    case '{' => Scan(ObjectBegin, p) case '}' => Scan(ObjectEnd, p)
    case '[' => Scan(ArrayBegin, p) case ']' => Scan(ArrayEnd, p)
    case ',' => Scan(ArraySeparator, p) case ':' => Scan(MemberSeparator, p)
    case '\0' => Scan(EndOfStream, p)
    case _ => LongScan(doc, c, p, f)
  }

  function LongScan(doc: string, c: char, p: nat, f: Features): Scan
    requires p <= |doc|
  {
    match c
    case '"' => QuotedScan(doc, p, '"')
    case '\'' => if f.allowSingleQuotes then QuotedScan(doc, p, '\'') else Scan(ErrorToken, p)
    case '/' => CommentScan(doc, p)
    case '-' => Signed(doc, p, NegInf, f)
    case '+' => Signed(doc, p, PosInf, f)
    case 't' => Word(doc, p, "rue", TrueToken)
    case 'f' => Word(doc, p, "alse", FalseToken)
    case 'n' => Word(doc, p, "ull", NullToken)
    case 'N' => Special(doc, p, "aN", NanToken, f)
    case 'I' => Special(doc, p, "nfinity", PosInf, f)
    case _ => if IsNum(c) then Scan(NumberToken, NumberEnd(doc, p)) else Scan(ErrorToken, p)
  }

  /** The token read at `p`, after white space. A NUL character counts as the end. */
  function Lex(doc: string, p: nat, f: Features): (t: Token)
    requires p <= |doc|
    ensures p <= t.start <= t.end <= |doc|
    ensures t.kind != EndOfStream ==> t.start < t.end
    ensures t.kind == StringToken ==> t.start + 2 <= t.end
  {
    hide ScanAfter, SpaceEnd;
    var start := SpaceEnd(doc, p);
    if start == |doc| then Token(EndOfStream, start, start)
    else
      ScanEnds(doc, doc[start], start + 1, f);
      var s := ScanAfter(doc, doc[start], start + 1, f);
      Token(s.kind, start, s.end)
  }

  lemma ScanEnds(doc: string, c: char, p: nat, f: Features)
    requires p <= |doc|
    ensures var s := ScanAfter(doc, c, p, f); p <= s.end <= |doc| && (s.kind == StringToken ==> p < s.end)
  {}

  /** The next token that is no comment. */
  function AfterComments(doc: string, p: nat, f: Features): (t: Token)
    requires p <= |doc|
    ensures p <= t.start <= t.end <= |doc| && t.kind != CommentToken
    ensures t.kind != EndOfStream ==> t.start < t.end
    ensures t.kind == StringToken ==> t.start + 2 <= t.end
    decreases |doc| - p
  {
    var t := Lex(doc, p, f);
    if t.kind == CommentToken then AfterComments(doc, t.end, f) else t
  }

  /** The same where comments are only skipped if they are allowed. */
  function ValueToken(doc: string, p: nat, f: Features): (t: Token)
    requires p <= |doc|
    ensures p <= t.start <= t.end <= |doc|
    ensures t.kind != EndOfStream ==> t.start < t.end
    ensures t.kind == StringToken ==> t.start + 2 <= t.end
  {
    if f.allowComments then AfterComments(doc, p, f) else Lex(doc, p, f)
  }
}
