/** Tokens and texts: what stands in a document as the text of a token is read as that token, and what
    is read as a token has such a text. */
module JsonSteps {
  import opened HttpTypes
  import opened Options
  import opened JsonValues
  import opened JsonNumbers
  import opened JsonQuoting
  import opened JsonTokens
  import opened JsonParse
  import opened JsonLayout

  // ---------------------------------------------------------------- texts in a document

  lemma SpellsParts(doc: string, p: nat, a: string, b: string)
    ensures Spells(doc, p, a + b) <==> Spells(doc, p, a) && Spells(doc, p + |a|, b)
  {
    if p + |a| + |b| <= |doc| {
      assert doc[p..p + |a| + |b|] == doc[p..p + |a|] + doc[p + |a|..p + |a| + |b|];
      assert (a + b)[..|a|] == a && (a + b)[|a|..] == b;
    }
  }

  lemma SpellsAt(doc: string, p: nat, s: string, i: nat)
    requires Spells(doc, p, s) && i < |s|
    ensures p + i < |doc| && doc[p + i] == s[i] == CharAt(doc, p + i)
  {}

  lemma SpellsTail(doc: string, p: nat, s: string)
    requires Spells(doc, p, s) && s != ""
    ensures Spells(doc, p + 1, s[1..])
  {
    assert s == [s[0]] + s[1..];
    SpellsParts(doc, p, [s[0]], s[1..]);
  }

  // ---------------------------------------------------------------- white space

  lemma {:induction false} SpaceEndIs(doc: string, p: nat, s: string)
    requires Spells(doc, p, s) && Blank(s) && (p + |s| < |doc| ==> !IsBlank(doc[p + |s|]))
    ensures SpaceEnd(doc, p) == p + |s|
    decreases |s|
  {
    if s != "" {
      assert s[0] in s && doc[p] == s[0];
      assert doc[p + 1..p + |s|] == s[1..];
      assert forall c | c in s[1..] :: c in s;
      SpaceEndIs(doc, p + 1, s[1..]);
    }
  }

  lemma {:induction false} SpaceIsBlank(doc: string, p: nat)
    requires p <= |doc|
    ensures var q := SpaceEnd(doc, p); Blank(doc[p..q]) && (q < |doc| ==> !IsBlank(doc[q]))
    decreases |doc| - p
  {
    if p < |doc| && IsBlank(doc[p]) {
      SpaceIsBlank(doc, p + 1);
      var q := SpaceEnd(doc, p);
      assert doc[p..q] == [doc[p]] + doc[p + 1..q];
    }
  }

  // ---------------------------------------------------------------- numbers

  /** A number is over at the end of the document, and at what can come after a value. */
  predicate Delimited(doc: string, p: nat) { p < |doc| ==> IsBlank(doc[p]) || doc[p] in {',', ']', '}', '\0', '/', '"'} }

  /** `t` stands at `p`, and nothing of a number comes after it. */
  predicate Stands(doc: string, p: nat, t: string) { Spells(doc, p, t) && Delimited(doc, p + |t|) }

  lemma StandsChar(doc: string, p: nat, t: string, i: nat)
    requires Stands(doc, p, t) && i <= |t|
    ensures i < |t| ==> CharAt(doc, p + i) == CharAt(t, i)
    ensures i == |t| ==> CharAt(t, i) == '\0' && CharAt(doc, p + i) !in {'.', 'e', 'E', '+', '-', 'I'} && !IsNum(CharAt(doc, p + i))
    ensures p + i <= |doc| && (i == |t| && p + i < |doc| ==> !IsNum(doc[p + i]))
  {
    if i < |t| { SpellsAt(doc, p, t, i); }
  }

  lemma {:induction false} DigitsStand(doc: string, p: nat, t: string, i: nat)
    requires Stands(doc, p, t) && i <= |t|
    ensures p + i <= |doc| && DigitsEnd(doc, p + i) == p + DigitsEnd(t, i)
    decreases |t| - i
  {
    hide Stands;
    StandsChar(doc, p, t, i);
    if i < |t| {
      StandsChar(doc, p, t, i + 1);
      DigitsStand(doc, p, t, i + 1);
    }
  }

  /** The scan of a number depends on nothing but its text. */
  lemma NumberStands(doc: string, p: nat, t: string)
    requires Stands(doc, p, t) && t != ""
    ensures p + 1 <= |doc| && NumberEnd(doc, p + 1) == p + NumberEnd(t, 1)
  {
    hide Stands, DigitsEnd;
    StandsChar(doc, p, t, 1);
    DigitsStand(doc, p, t, 1);
    var i := DigitsEnd(t, 1);
    StandsChar(doc, p, t, i);
    if i < |t| { StandsChar(doc, p, t, i + 1); DigitsStand(doc, p, t, i + 1); }
    var j := FractionEnd(t, i);
    assert FractionEnd(doc, p + i) == p + j;
    StandsChar(doc, p, t, j);
    if j < |t| {
      StandsChar(doc, p, t, j + 1);
      DigitsStand(doc, p, t, j + 1);
      if j + 1 < |t| { StandsChar(doc, p, t, j + 2); DigitsStand(doc, p, t, j + 2); }
    }
  }

  /** Up to where a scan comes, the rest of the document does not matter. */
  lemma {:induction false} DigitsWithin(doc: string, a: nat, b: nat, p: nat)
    requires a <= p <= |doc| && DigitsEnd(doc, p) <= b <= |doc|
    ensures DigitsEnd(doc[a..b], p - a) == DigitsEnd(doc, p) - a
    decreases |doc| - p
  {
    if p < b && IsNum(doc[p]) { DigitsWithin(doc, a, b, p + 1); }
  }

  lemma NumberWithin(doc: string, a: nat, b: nat)
    requires a + 1 <= |doc| && NumberEnd(doc, a + 1) <= b <= |doc|
    ensures NumberEnd(doc[a..b], 1) == NumberEnd(doc, a + 1) - a
  {
    hide DigitsEnd;
    var t := doc[a..b];
    var i := DigitsEnd(doc, a + 1);
    DigitsWithin(doc, a, b, a + 1);
    assert forall k: nat | a <= k < b :: CharAt(t, k - a) == doc[k];
    var j := FractionEnd(doc, i);
    if CharAt(doc, i) == '.' { DigitsWithin(doc, a, b, i + 1); }
    assert FractionEnd(t, i - a) == j - a;
    if j < b {
      if CharAt(doc, j + 1) in {'+', '-'} {
        if j + 2 <= NumberEnd(doc, a + 1) { DigitsWithin(doc, a, b, j + 2); }
      } else if j + 1 <= NumberEnd(doc, a + 1) {
        DigitsWithin(doc, a, b, j + 1);
      }
    }
  }

  lemma {:induction false} DigitsEndIs(t: string, p: nat, q: nat)
    requires p <= q <= |t| && AllDigits(t[p..q]) && (q < |t| ==> !IsNum(t[q]))
    ensures DigitsEnd(t, p) == q
    decreases q - p
  {
    if p < q {
      assert t[p] == t[p..q][0];
      assert t[p + 1..q] == t[p..q][1..];
      DigitsEndIs(t, p + 1, q);
    }
  }

  lemma {:induction false} DigitsEndDigits(t: string, p: nat)
    requires p <= |t|
    ensures AllDigits(t[p..DigitsEnd(t, p)])
    decreases |t| - p
  {
    if p < |t| && IsNum(t[p]) {
      DigitsEndDigits(t, p + 1);
      assert t[p..DigitsEnd(t, p)] == [t[p]] + t[p + 1..DigitsEnd(t, p)];
    }
  }

  /** The scan takes a text to its end exactly if it has the parts of a number. */
  lemma NumberScanned(t: string)
    requires t != "" && (IsNum(t[0]) || t[0] in {'-', '+'})
    ensures IsNumber(t) <==> NumberEnd(t, 1) == |t|
  {
    hide DigitsEnd, AllDigits;
    if IsNumber(t) {
      var i, j :| 1 <= i <= j <= |t| && NumberParts(t, i, j);
      PartsScanned(t, i, j);
    }
    if NumberEnd(t, 1) == |t| {
      var i := DigitsEnd(t, 1);
      var j := FractionEnd(t, i);
      ScannedParts(t);
      assert NumberParts(t, i, j);
    }
  }

  lemma PartsScanned(t: string, i: nat, j: nat)
    requires NumberParts(t, i, j)
    ensures NumberEnd(t, 1) == |t|
  {
    hide DigitsEnd, AllDigits;
    if j < |t| { assert t[j..][0] == t[j]; }
    if i < j { assert t[i..j][0] == t[i]; }
    DigitsEndIs(t, 1, i);
    if i < j {
      assert t[i..j][1..] == t[i + 1..j];
      DigitsEndIs(t, i + 1, j);
    }
    assert FractionEnd(t, i) == j;
    if j < |t| {
      assert t[j..][1..] == t[j + 1..|t|];
      if j + 1 < |t| && t[j + 1] in {'+', '-'} {
        assert t[j..][1] == t[j + 1] && t[j..][2..] == t[j + 2..|t|];
        assert !AllDigits(t[j..][1..]) by { NoDigit(t[j..][1..]); }
        DigitsEndIs(t, j + 2, |t|);
      } else {
        if j + 1 < |t| { assert t[j..][1] == t[j + 1]; }
        DigitsEndIs(t, j + 1, |t|);
      }
    }
  }

  lemma NoDigit(s: string)
    requires s != "" && !IsNum(s[0])
    ensures !AllDigits(s)
  {
    assert s[0] in s;
  }

  lemma FractionScanned(t: string, i: nat)
    requires i <= |t|
    ensures IsFraction(t[i..FractionEnd(t, i)])
  {
    hide DigitsEnd, AllDigits;
    var j := FractionEnd(t, i);
    if i < |t| && t[i] == '.' {
      DigitsEndDigits(t, i + 1);
      assert t[i..j][0] == '.' && t[i..j][1..] == t[i + 1..j];
    }
  }

  lemma ExponentScanned(t: string, j: nat)
    requires j <= |t| && ExponentEnd(t, j) == |t|
    ensures IsExponent(t[j..])
  {
    hide DigitsEnd, AllDigits;
    if j < |t| {
      assert t[j..][0] == t[j];
      if CharAt(t, j + 1) in {'+', '-'} {
        DigitsEndDigits(t, j + 2);
        assert t[j..][1] == t[j + 1] && t[j..][2..] == t[j + 2..|t|];
      } else {
        DigitsEndDigits(t, j + 1);
        assert t[j..][1..] == t[j + 1..|t|];
      }
    }
  }

  lemma ScannedParts(t: string)
    requires t != "" && NumberEnd(t, 1) == |t|
    ensures var i := DigitsEnd(t, 1); NumberParts(t, i, FractionEnd(t, i))
  {
    hide DigitsEnd, AllDigits, IsFraction, IsExponent, FractionEnd, ExponentEnd;
    var i := DigitsEnd(t, 1);
    DigitsEndDigits(t, 1);
    FractionScanned(t, i);
    ExponentScanned(t, FractionEnd(t, i));
  }

  /** A number token is the longest text there that has the parts of a number. */
  lemma NumberLongest(doc: string, a: nat)
    requires a < |doc| && (doc[a] in {'-', '+'} || IsNum(doc[a]))
    ensures var b := NumberEnd(doc, a + 1); IsNumber(doc[a..b]) && forall c | b < c <= |doc| :: !IsNumber(doc[a..c])
  {
    hide NumberEnd, IsNumber;
    var b := NumberEnd(doc, a + 1);
    forall c | b <= c <= |doc|
      ensures IsNumber(doc[a..c]) <==> c == b
    {
      assert doc[a..c][0] == doc[a];
      NumberWithin(doc, a, c);
      NumberScanned(doc[a..c]);
    }
  }

  // ---------------------------------------------------------------- strings

  /** A string ends at the first quote that ends it. */
  lemma {:induction false} QuoteFound(doc: string, p: nat, b: string)
    requires Escaped(b) && Spells(doc, p, b + "\"")
    ensures p <= |doc| && QuoteEnd(doc, p, '"') == Some(p + |b| + 1)
    decreases |b|
  {
    SpellsAt(doc, p, b + "\"", 0);
    if b != "" {
      var k := if doc[p] == '\\' then 2 else 1;
      assert b + "\"" == b[..k] + (b[k..] + "\"");
      SpellsParts(doc, p, b[..k], b[k..] + "\"");
      QuoteFound(doc, p + k, b[k..]);
    }
  }

  lemma {:induction false} QuoteEscaped(doc: string, p: nat)
    requires p <= |doc| && QuoteEnd(doc, p, '"').Some?
    ensures var e := QuoteEnd(doc, p, '"').value; doc[e - 1] == '"' && Escaped(doc[p..e - 1])
    decreases |doc| - p
  {
    var e := QuoteEnd(doc, p, '"').value;
    var b := doc[p..e - 1];
    if doc[p] == '\\' {
      QuoteEscaped(doc, p + 2);
      assert b[2..] == doc[p + 2..e - 1];
    } else if doc[p] != '"' {
      QuoteEscaped(doc, p + 1);
      assert b[1..] == doc[p + 1..e - 1];
    }
  }

  // ---------------------------------------------------------------- tokens

  /** A text that begins with no white space, after white space: the token there. */
  lemma LexAt(doc: string, p: nat, blank: string, t: string, f: Features)
    requires Blank(blank) && t != "" && !IsBlank(t[0]) && Spells(doc, p, blank + t)
    ensures p <= |doc| && Spells(doc, p + |blank|, t)
    ensures var q := p + |blank|;
            && q < |doc| && SpaceEnd(doc, p) == q && doc[q] == t[0]
            && var s := ScanAfter(doc, t[0], q + 1, f); Lex(doc, p, f) == Token(s.kind, q, s.end)
  {
    hide ScanAfter, SpaceEnd;
    SpellsParts(doc, p, blank, t);
    SpellsAt(doc, p + |blank|, t, 0);
    SpaceEndIs(doc, p, blank);
  }

  /** A single character that is a token by itself. */
  function Mark(c: char): TokenKind {
    match c
    case '{' => ObjectBegin case '}' => ObjectEnd case '[' => ArrayBegin case ']' => ArrayEnd
    case ',' => ArraySeparator case ':' => MemberSeparator case _ => ErrorToken
  }

  lemma LexMark(doc: string, p: nat, blank: string, c: char, f: Features)
    requires Blank(blank) && c in {'{', '}', '[', ']', ',', ':'} && Spells(doc, p, blank + [c])
    ensures p <= |doc| && SpaceEnd(doc, p) == p + |blank|
    ensures var t := Token(Mark(c), p + |blank|, p + |blank| + 1);
            Lex(doc, p, f) == t && AfterComments(doc, p, f) == t && ValueToken(doc, p, f) == t
  {
    hide SpaceEnd;
    LexAt(doc, p, blank, [c], f);
  }

  /** The kind of a scalar's text. */
  function AtomKind(t: string): TokenKind {
    if t == "null" then NullToken else if t == "true" then TrueToken else if t == "false" then FalseToken
    else if IsString(t) then StringToken else NumberToken
  }

  lemma AtomStarts(t: string, env: Env)
    requires AtomOf(t, env).Some?
    ensures t != "" && !IsBlank(t[0]) && t[0] !in {'{', '}', '[', ']', ',', ':', '/', '\0'} && t[0] as int < 128
  {
    hide StringOf, NumberOf, NumberEnd, Escaped;
  }

  lemma AtomScan(doc: string, p: nat, t: string, env: Env)
    requires AtomOf(t, env).Some? && Stands(doc, p, t)
    ensures t != "" && p + 1 <= |doc| && ScanAfter(doc, t[0], p + 1, env.f) == Scan(AtomKind(t), p + |t|)
  {
    hide StringOf, NumberOf, NumberEnd, Escaped, Stands, Delimited, QuoteEnd;
    StandsSpells(doc, p, t);
    AtomStarts(t, env);
    SpellsTail(doc, p, t);
    if t == "null" {} else if t == "true" {} else if t == "false" {}
    else if IsString(t) {
      var b := t[1..|t| - 1];
      assert t[1..] == b + "\"";
      QuoteFound(doc, p + 1, b);
    } else {
      NumberStands(doc, p, t);
      StandsChar(doc, p, t, 1);
      NoInfinity(t);
    }
  }

  lemma StandsSpells(doc: string, p: nat, t: string)
    requires Stands(doc, p, t)
    ensures Spells(doc, p, t) && Delimited(doc, p + |t|)
  {}

  lemma NoInfinity(t: string)
    requires IsNumber(t)
    ensures NumberEnd(t, 1) == |t| && (|t| > 1 ==> t[1] != 'I')
  {
    hide DigitsEnd, IsNumber;
    assert IsNum(t[0]) || t[0] in {'-', '+'} by { NumberHead(t); }
    NumberScanned(t);
    if |t| > 1 && t[1] == 'I' { assert DigitsEnd(t, 1) == 1 by { DigitsStop(t, 1); } }
  }

  lemma NumberHead(t: string)
    requires IsNumber(t)
    ensures t != "" && (IsNum(t[0]) || t[0] in {'-', '+'})
  {}

  lemma DigitsStop(t: string, p: nat)
    requires p < |t| && !IsNum(t[p])
    ensures DigitsEnd(t, p) == p
  {}

  lemma InsideSlice(doc: string, a: nat, b: nat)
    requires a + 2 <= b <= |doc|
    ensures doc[a..b][1..b - a - 1] == doc[a + 1..b - 1]
  {
    var u, w := doc[a..b], doc[a + 1..b - 1];
    var v := u[1..b - a - 1];
    forall i | 0 <= i < |v|
      ensures v[i] == w[i]
    {
      assert v[i] == u[i + 1] == doc[a + 1 + i];
    }
  }

  // ---------------------------------------------------------------- comments

  lemma {:induction false} StarFound(doc: string, p: nat, i: nat)
    requires p <= i && i + 1 < |doc| && doc[i] == '*' && doc[i + 1] == '/'
    requires forall j | p <= j < i :: !(doc[j] == '*' && doc[j + 1] == '/')
    ensures StarEnd(doc, p) == i + 1
    decreases i - p
  {
    if p < i { StarFound(doc, p + 1, i); }
  }

  lemma {:induction false} StarStops(doc: string, p: nat)
    requires p <= |doc|
    ensures var q := StarEnd(doc, p);
            q + 1 < |doc| ==>
              p < q && doc[q - 1] == '*' && doc[q] == '/' && forall j | p <= j < q - 1 :: !(doc[j] == '*' && doc[j + 1] == '/')
    decreases |doc| - p
  {
    if p + 1 < |doc| && !(doc[p] == '*' && doc[p + 1] == '/') { StarStops(doc, p + 1); }
  }

  /** A line that ends with its character before `e`. */
  predicate LineTo(doc: string, p: nat, e: nat) {
    && p < e <= |doc| && doc[e - 1] in {'\n', '\r'}
    && forall i | p <= i < e - 1 :: doc[i] != '\n' && (doc[i] == '\r' ==> i == e - 2 && doc[e - 1] == '\n')
  }

  lemma {:induction false} LineFound(doc: string, p: nat, e: nat)
    requires LineTo(doc, p, e)
    ensures LineEnd(doc, p) == if doc[e - 1] == '\r' && CharAt(doc, e) == '\n' then e + 1 else e
    decreases e - p
  {
    if doc[p] !in {'\n', '\r'} { LineFound(doc, p + 1, e); }
  }

  lemma {:induction false} LineStops(doc: string, p: nat)
    requires p <= |doc|
    ensures var e := LineEnd(doc, p); e < |doc| ==> LineTo(doc, p, e)
    decreases |doc| - p
  {
    if p < |doc| && doc[p] !in {'\n', '\r'} { LineStops(doc, p + 1); }
  }

  /** Where a comment stands there is a comment token; one that ends in a carriage return takes a line feed
      after it along. */
  lemma CommentLex(doc: string, p: nat, c: string, f: Features)
    requires Comment(c) && Spells(doc, p, c)
    ensures p <= |doc|
    ensures var e := p + |c|;
            Lex(doc, p, f) == Token(CommentToken, p, if c[|c| - 1] == '\r' && CharAt(doc, e) == '\n' then e + 1 else e)
  {
    hide SpaceEnd, StarEnd, LineEnd, QuoteEnd, NumberEnd;
    var e := p + |c|;
    assert forall i | 0 <= i < |c| :: doc[p + i] == c[i];
    assert SpaceEnd(doc, p) == p by { SpaceStays(doc, p); }
    if c[1] == '*' {
      forall j | p + 2 <= j < e - 2
        ensures !(doc[j] == '*' && doc[j + 1] == '/')
      {
        assert doc[j] == c[j - p] && doc[j + 1] == c[j + 1 - p];
      }
      StarFound(doc, p + 2, e - 2);
    } else {
      forall i | p + 2 <= i < e - 1
        ensures doc[i] != '\n' && (doc[i] == '\r' ==> i == e - 2 && doc[e - 1] == '\n')
      {
        assert doc[i] == c[i - p];
      }
      LineFound(doc, p + 2, e);
    }
  }

  lemma SpaceStays(doc: string, p: nat)
    requires p < |doc| && !IsBlank(doc[p])
    ensures SpaceEnd(doc, p) == p
  {}

  /** A comment token within the document is a comment. */
  lemma CommentText(doc: string, a: nat, f: Features)
    requires a < |doc| && doc[a] == '/' && CommentScan(doc, a + 1).kind == CommentToken && CommentScan(doc, a + 1).end < |doc|
    ensures a < CommentScan(doc, a + 1).end && Comment(doc[a..CommentScan(doc, a + 1).end])
  {
    hide StarEnd, LineEnd;
    var e := CommentScan(doc, a + 1).end;
    var c := doc[a..e];
    if CharAt(doc, a + 1) == '*' {
      StarStops(doc, a + 2);
      forall i | 2 <= i < |c| - 2
        ensures !(c[i] == '*' && c[i + 1] == '/')
      {
        assert c[i] == doc[a + i] && c[i + 1] == doc[a + i + 1];
      }
    } else {
      LineStops(doc, a + 2);
      forall i | 2 <= i < |c| - 1
        ensures c[i] != '\n' && (c[i] == '\r' ==> i == |c| - 2 && c[|c| - 1] == '\n')
      {
        assert c[i] == doc[a + i];
      }
    }
  }

  // ---------------------------------------------------------------- gaps

  /** White space before a token makes no difference. */
  lemma LexSkips(doc: string, p: nat, q: nat, f: Features)
    requires p <= q <= |doc| && q <= SpaceEnd(doc, p)
    ensures SpaceEnd(doc, q) == SpaceEnd(doc, p)
    ensures Lex(doc, p, f) == Lex(doc, q, f) && AfterComments(doc, p, f) == AfterComments(doc, q, f)
    ensures ValueToken(doc, p, f) == ValueToken(doc, q, f)
    decreases q - p
  {
    hide ScanAfter;
    if p < q { LexSkips(doc, p + 1, q, f); }
  }

  /** A gap is nothing, white space and a gap, or a comment and a gap. */
  lemma GapCases(g: string) returns (k: nat)
    requires Gap(g) && g != ""
    ensures 0 < k <= |g| && Gap(g[k..]) && if Comment(g[..k]) then !Blank(g) else k == 1 && IsBlank(g[0])
    ensures g == g[..k] + g[k..]
  {
    hide Comment;
    if IsBlank(g[0]) && Gap(g[1..]) {
      k := 1;
      if Comment(g[..k]) { CommentLength(g[..k]); }
    } else {
      k :| 0 < k <= |g| && Comment(g[..k]) && Gap(g[k..]);
      CommentNotBlank(g, k);
    }
  }

  lemma BlankTail(g: string)
    requires g != "" && IsBlank(g[0])
    ensures Blank(g) <==> Blank(g[1..])
  {
    assert g == [g[0]] + g[1..];
  }

  /** After a gap comes the token that stands there. Without comments in the gap, no comment is skipped. */
  lemma {:induction false} GapToken(doc: string, p: nat, g: string, f: Features)
    requires Gap(g) && Spells(doc, p, g) && p + |g| < |doc| && !IsBlank(doc[p + |g|]) && Lex(doc, p + |g|, f).kind != CommentToken
    ensures AfterComments(doc, p, f) == Lex(doc, p + |g|, f)
    ensures if Blank(g) then Lex(doc, p, f) == Lex(doc, p + |g|, f) else Lex(doc, p, f).kind == CommentToken
    decreases |g|
  {
    hide Lex, Comment, Gap, Blank, Spells;
    if g == "" {
      assert Blank(g) by { NoBlanks(); }
    } else {
      var k := GapCases(g);
      SpellsParts(doc, p, g[..k], g[k..]);
      if !Comment(g[..k]) {
        BlankFirst(doc, p, g);
        GapToken(doc, p + 1, g[1..], f);
        LexSkips(doc, p, p + 1, f);
        BlankTail(g);
      } else {
        CommentLex(doc, p, g[..k], f);
        var e, h := p + k, g[k..];
        if g[..k][|g[..k]| - 1] == '\r' && CharAt(doc, e) == '\n' {
          LineFeedNext(doc, e, h);
          GapToken(doc, e + 1, h[1..], f);
        } else {
          GapToken(doc, e, h, f);
        }
      }
    }
  }

  lemma NoBlanks()
    ensures Blank("")
  {}

  lemma BlankFirst(doc: string, p: nat, g: string)
    requires g != "" && IsBlank(g[0]) && Spells(doc, p, g)
    ensures p < |doc| && SpaceEnd(doc, p) >= p + 1 && Spells(doc, p + 1, g[1..])
  {
    SpellsTail(doc, p, g);
  }

  /** A line feed after a comment is part of the gap. */
  lemma LineFeedNext(doc: string, e: nat, h: string)
    requires Gap(h) && Spells(doc, e, h) && CharAt(doc, e) == '\n' && e + |h| < |doc| && !IsBlank(doc[e + |h|])
    ensures h != "" && Gap(h[1..]) && Spells(doc, e + 1, h[1..])
  {
    hide Gap;
    assert h != "" && h[0] == '\n';
    SpellsTail(doc, e, h);
    LineFeedGap(h);
  }

  lemma CommentNotBlank(g: string, k: nat)
    requires k <= |g| && Comment(g[..k])
    ensures !Blank(g)
  {
    assert g[0] == g[..k][0] && g[0] in g;
  }

  lemma LineFeedGap(h: string)
    requires Gap(h) && h != "" && h[0] == '\n'
    ensures Gap(h[1..])
  {
    forall k | 0 < k <= |h|
      ensures !Comment(h[..k])
    {
      assert h[..k][0] == h[0];
    }
  }

  lemma {:induction false} GapJoin(a: string, g: string)
    requires Blank(a) && Gap(g)
    ensures Gap(a + g)
    decreases |a|
  {
    if a == "" {
      assert a + g == g;
    } else {
      assert a[0] in a && forall c | c in a[1..] :: c in a;
      GapJoin(a[1..], g);
      assert (a + g)[1..] == a[1..] + g;
    }
  }

  lemma BlankGap(a: string)
    requires Blank(a)
    ensures Gap(a)
  {
    GapJoin(a, "");
    assert a + "" == a;
  }

  lemma CommentJoin(c: string, g: string)
    requires Comment(c) && Gap(g)
    ensures Gap(c + g)
  {
    hide Comment;
    var s := c + g;
    assert |c| > 0 by { CommentLength(c); }
    assert s[..|c|] == c && s[|c|..] == g;
  }

  lemma CommentLength(c: string)
    requires Comment(c)
    ensures |c| > 1
  {}

  /** What is skipped before a token within the document is a gap. */
  lemma {:induction false} GapSound(doc: string, p: nat, f: Features)
    requires p <= |doc| && AfterComments(doc, p, f).start < |doc|
    ensures var t := AfterComments(doc, p, f); Gap(doc[p..t.start]) && Lex(doc, t.start, f) == t
    ensures Blank(doc[p..AfterComments(doc, p, f).start]) <==> Lex(doc, p, f).kind != CommentToken
    decreases |doc| - p
  {
    hide Comment, Gap, ScanAfter;
    var a := SpaceEnd(doc, p);
    SpaceIsBlank(doc, p);
    LexSkips(doc, p, a, f);
    var t, u := AfterComments(doc, p, f), Lex(doc, p, f);
    if u.kind != CommentToken {
      BlankGap(doc[p..a]);
    } else {
      GapSound(doc, u.end, f);
      CommentSlash(doc, a, f);
      CommentText(doc, a, f);
      var b, c, g := doc[p..a], doc[a..u.end], doc[u.end..t.start];
      CommentJoin(c, g);
      GapJoin(b, c + g);
      ThreeSlices(doc, p, a, u.end, t.start);
      assert doc[a] in doc[p..t.start];
    }
  }

  lemma ThreeSlices(s: string, i: nat, j: nat, k: nat, n: nat)
    requires i <= j < k <= n <= |s|
    ensures s[i..n] == s[i..j] + (s[j..k] + s[k..n]) && s[j] in s[i..n]
  {
    assert s[i..n][j - i] == s[j];
  }

  lemma CommentSlash(doc: string, a: nat, f: Features)
    requires a < |doc| && ScanAfter(doc, doc[a], a + 1, f).kind == CommentToken
    ensures doc[a] == '/' && CommentScan(doc, a + 1) == ScanAfter(doc, doc[a], a + 1, f)
  {
    hide CommentScan, QuoteEnd, NumberEnd;
  }

  // ---------------------------------------------------------------- any token

  /** What comes after the comma between members, or what passes for it. */
  predicate Settled(doc: string, p: nat) { p < |doc| && (IsBlank(doc[p]) || doc[p] in {'/', '"', '}'}) }

  lemma MarkScan(doc: string, p: nat, w: string, f: Features)
    requires w in {",", "{", "[", "]", ":", "\0"} || (|w| == 1 && Stray(w[0], f))
    requires Spells(doc, p, w) && Settled(doc, p + |w|)
    ensures |w| == 1 && !IsBlank(w[0]) && p + 1 <= |doc|
    ensures var s := ScanAfter(doc, w[0], p + 1, f);
            s.end == p + 1 && s.kind !in {ObjectEnd, CommentToken} && (s.kind == ArraySeparator <==> w == ",")
  {
    hide QuoteEnd, NumberEnd, StarEnd, LineEnd, DigitsEnd;
    if w[0] in {'t', 'f', 'n', 'N', 'I'} {
      var c := doc[p + 1];
      NoWordHere(doc, p + 1, "rue");
      NoWordHere(doc, p + 1, "alse");
      NoWordHere(doc, p + 1, "ull");
      NoWordHere(doc, p + 1, "aN");
      NoWordHere(doc, p + 1, "nfinity");
    }
  }

  lemma NoWordHere(doc: string, p: nat, rest: string)
    requires Settled(doc, p) && rest != "" && !IsBlank(rest[0]) && rest[0] !in {'/', '"', '}'}
    ensures !Spells(doc, p, rest)
  {
    assert p + |rest| <= |doc| ==> doc[p..p + |rest|][0] == doc[p];
  }

  lemma WordScan(doc: string, p: nat, w: string, f: Features)
    requires w in {"true", "false", "null"} && Spells(doc, p, w)
    ensures p + 1 <= |doc|
    ensures ScanAfter(doc, w[0], p + 1, f) ==
            Scan(if w == "true" then TrueToken else if w == "false" then FalseToken else NullToken, p + |w|)
  {
    SpellsTail(doc, p, w);
  }

  lemma InfinityScan(doc: string, p: nat, w: string, f: Features)
    requires w in {"-I", "+I"} && Spells(doc, p, w) && Settled(doc, p + 2)
    ensures p + 1 <= |doc| && ScanAfter(doc, w[0], p + 1, f) == Scan(ErrorToken, p + 2)
  {
    hide NumberEnd;
    SpellsAt(doc, p, w, 1);
    NoWordHere(doc, p + 2, "nfinity");
  }

  /** A token that passes for a comma is read to its end. */
  lemma AnyTokenLex(doc: string, p: nat, w: string, f: Features)
    requires AnyToken(w, f) && Spells(doc, p, w) && Settled(doc, p + |w|)
    ensures w != "" && !IsBlank(w[0]) && p < |doc| && doc[p] == w[0]
    ensures var t := Lex(doc, p, f);
            t.start == p && t.end == p + |w| && t.kind !in {ObjectEnd, CommentToken} && (t.kind == ArraySeparator <==> w == ",")
  {
    hide Escaped, QuoteEnd, NumberEnd, ScanAfter, DigitsEnd, Stray, Settled, Spells;
    if w in {",", "{", "[", "]", ":", "\0"} || (|w| == 1 && Stray(w[0], f)) {
      MarkScan(doc, p, w, f);
    } else if w in {"true", "false", "null"} {
      WordScan(doc, p, w, f);
    } else if w in {"-I", "+I"} {
      InfinityScan(doc, p, w, f);
    } else {
      OtherScan(doc, p, w, f);
    }
    SpellsAt(doc, p, w, 0);
    SpaceStays(doc, p);
  }

  lemma OtherScan(doc: string, p: nat, w: string, f: Features)
    requires IsString(w) || IsNumber(w) || (|w| == 2 && w[0] == '/' && w[1] !in {'/', '*'})
    requires Spells(doc, p, w) && Settled(doc, p + |w|)
    ensures w != "" && !IsBlank(w[0]) && p + 1 <= |doc| && w[0] !in {','} && w != ","
    ensures var s := ScanAfter(doc, w[0], p + 1, f); s.end == p + |w| && s.kind in {StringToken, NumberToken, ErrorToken}
  {
    hide Escaped, QuoteEnd, NumberEnd, DigitsEnd, StarEnd, LineEnd;
    SpellsTail(doc, p, w);
    if IsString(w) {
      var b := w[1..|w| - 1];
      assert w[1..] == b + "\"";
      QuoteFound(doc, p + 1, b);
    } else if IsNumber(w) {
      NumberStands(doc, p, w);
      StandsChar(doc, p, w, 1);
      NoInfinity(w);
    } else {
      SpellsAt(doc, p, w, 1);
    }
  }

  /** Every token that ends before the document does, but for a closing brace or a comment, is such a one. */
  lemma AnyTokenSound(doc: string, a: nat, f: Features)
    requires a < |doc| && !IsBlank(doc[a]) && !f.allowSingleQuotes && !f.allowSpecialFloats
    requires var s := ScanAfter(doc, doc[a], a + 1, f); s.kind !in {ObjectEnd, CommentToken} && s.end < |doc|
    ensures var s := ScanAfter(doc, doc[a], a + 1, f);
            a < s.end && AnyToken(doc[a..s.end], f) && (s.kind == ArraySeparator <==> doc[a..s.end] == ",")
  {
    hide QuoteEnd, NumberEnd, StarEnd, LineEnd, Escaped, Spells;
    ScanEnds(doc, doc[a], a + 1, f);
    var c := doc[a];
    assert doc[a..a + 1] == [c];
    if c == 't' && Spells(doc, a + 1, "rue") { WordText(doc, a, c, "rue"); assert [c] + "rue" == "true"; }
    else if c == 'f' && Spells(doc, a + 1, "alse") { WordText(doc, a, c, "alse"); assert [c] + "alse" == "false"; }
    else if c == 'n' && Spells(doc, a + 1, "ull") { WordText(doc, a, c, "ull"); assert [c] + "ull" == "null"; }
    else if c == '"' { if QuoteEnd(doc, a + 1, '"').Some? { QuoteText(doc, a); } }
    else if (c == '-' || c == '+') && CharAt(doc, a + 1) == 'I' { assert doc[a..a + 2] == [c, 'I']; }
    else if c == '-' || c == '+' || IsNum(c) { NumberLongest(doc, a); }
    else if c == '/' { SlashSound(doc, a, f); }
    else {}
  }

  /** A star and slash, or the end of the document. */
  lemma StarStopsWhole(doc: string, p: nat)
    ensures p <= |doc| ==> var q := StarEnd(doc, p); q + 1 < |doc| ==> CharAt(doc, q) == '/'
  {
    if p <= |doc| { StarStops(doc, p); }
  }

  lemma SlashSound(doc: string, a: nat, f: Features)
    requires a < |doc| && doc[a] == '/' && CommentScan(doc, a + 1).kind != CommentToken && CommentScan(doc, a + 1).end < |doc|
    ensures CommentScan(doc, a + 1).end == a + 2 && doc[a..a + 2][0] == '/' && doc[a..a + 2][1] !in {'/', '*'}
  {
    hide LineEnd, StarEnd;
    StarStopsWhole(doc, a + 2);
  }

  lemma WordText(doc: string, a: nat, c: char, rest: string)
    requires a < |doc| && doc[a] == c && Spells(doc, a + 1, rest)
    ensures doc[a..a + 1 + |rest|] == [c] + rest
  {
    assert doc[a..a + 1 + |rest|] == [doc[a]] + doc[a + 1..a + 1 + |rest|];
  }

  lemma QuoteText(doc: string, a: nat)
    requires a < |doc| && doc[a] == '"' && QuoteEnd(doc, a + 1, '"').Some?
    ensures IsString(doc[a..QuoteEnd(doc, a + 1, '"').value])
  {
    hide Escaped, QuoteEnd;
    var e := QuoteEnd(doc, a + 1, '"').value;
    QuoteEscaped(doc, a + 1);
    assert doc[e - 1] == '"';
    InsideSlice(doc, a, e);
  }

  // ---------------------------------------------------------------- tokens after gaps

  lemma ValueGapToken(doc: string, p: nat, g: string, f: Features)
    requires ValueGap(g, f) && Spells(doc, p, g) && p + |g| < |doc| && !IsBlank(doc[p + |g|]) && Lex(doc, p + |g|, f).kind != CommentToken
    ensures ValueToken(doc, p, f) == Lex(doc, p + |g|, f)
  {
    hide Lex, AfterComments, Gap, Blank, Spells;
    if !f.allowComments { BlankGap(g); }
    GapToken(doc, p, g, f);
  }

  /** A mark after a gap, and what follows it. */
  lemma GapMark(doc: string, p: nat, g: string, c: char, rest: string, f: Features)
    requires Gap(g) && c in {'{', '}', '[', ']', ',', ':'} && Spells(doc, p, g + ([c] + rest))
    ensures p + |g| < |doc| && doc[p + |g|] == c && Spells(doc, p + |g| + 1, rest)
    ensures var t := Token(Mark(c), p + |g|, p + |g| + 1);
            && AfterComments(doc, p, f) == t && (ValueGap(g, f) ==> ValueToken(doc, p, f) == t)
            && if Blank(g) then Lex(doc, p, f) == t && SpaceEnd(doc, p) == p + |g| else Lex(doc, p, f).kind == CommentToken
  {
    hide SpaceEnd, Lex, AfterComments, ValueToken, Gap, Blank, Spells;
    assert g + ([c] + rest) == g + [c] + rest;
    SpellsParts(doc, p, g + [c], rest);
    SpellsParts(doc, p, g, [c]);
    SpellsAt(doc, p + |g|, [c], 0);
    assert "" + [c] == [c] && Blank("") by { NoBlanks(); }
    LexMark(doc, p + |g|, "", c, f);
    GapToken(doc, p, g, f);
    if ValueGap(g, f) { ValueGapToken(doc, p, g, f); }
    if Blank(g) { SpaceEndIs(doc, p, g); }
  }

  lemma AtomToken(doc: string, q: nat, t: string, env: Env)
    requires AtomOf(t, env).Some? && Stands(doc, q, t)
    ensures q < |doc| && !IsBlank(doc[q]) && Lex(doc, q, env.f) == Token(AtomKind(t), q, q + |t|) && doc[q..q + |t|] == t
  {
    hide AtomOf, ScanAfter, SpaceEnd, Delimited, IsString;
    AtomStarts(t, env);
    assert "" + t == t && Blank("") by { NoBlanks(); }
    LexAt(doc, q, "", t, env.f);
    AtomScan(doc, q, t, env);
  }

  lemma AtomParses(doc: string, q: nat, t: string, env: Env)
    requires AtomOf(t, env).Some? && q + |t| <= |doc| && doc[q..q + |t|] == t && t != ""
    ensures AtomKind(t) == StringToken ==> |t| >= 2
    ensures ParseScalar(doc, Token(AtomKind(t), q, q + |t|), env) == Good(AtomValue(t, env), q + |t|)
    ensures AtomKind(t) in {NullToken, TrueToken, FalseToken, StringToken, NumberToken}
  {
    hide Decoded, NumberOf, IsNumber, Escaped;
    if IsString(t) { InsideSlice(doc, q, q + |t|); }
  }

  /** A scalar where a value is wanted. */
  lemma ParsesAtom(doc: string, p: nat, g: string, t: string, room: int, env: Env)
    requires ValueGap(g, env.f) && AtomOf(t, env).Some? && Stands(doc, p, g + t) && room > 0
    ensures p <= |doc| && ParseValue(doc, p, room, env) == Good(AtomValue(t, env), p + |g| + |t|) && ValueKept(doc, p, room, env)
  {
    hide AtomOf, AtomKind, AtomValue, Lex, ParseScalar, Delimited, ValueGap, ValueToken, ParseMembers, ParseItems, ItemsKept, MembersKept;
    var q := p + |g|;
    AtomStarts(t, env);
    SpellsParts(doc, p, g, t);
    AtomToken(doc, q, t, env);
    AtomParses(doc, q, t, env);
    ValueGapToken(doc, p, g, env.f);
  }
}
