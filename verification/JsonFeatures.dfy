/** The features that add to the syntax: special floats, single quotes, numbers as names, nulls left out,
    and text after the value. */
module JsonFeatures {
  import opened HttpTypes
  import opened Options
  import opened JsonValues
  import opened JsonNumbers
  import opened JsonQuoting
  import opened JsonTokens
  import opened JsonParse
  import opened JsonLayout
  import opened JsonSteps
  import opened JsonTrees
  import opened JsonAccepted
  import JsonSpelling

  /** A token after a gap, where a value is wanted. */
  lemma TokenAfterGap(doc: string, p: nat, g: string, t: string, f: Features)
    requires ValueGap(g, f) && t != "" && !IsBlank(t[0]) && Spells(doc, p, g + t)
    requires ScanAfter(doc, t[0], p + |g| + 1, f).kind != CommentToken
    ensures var q, s := p + |g|, ScanAfter(doc, t[0], p + |g| + 1, f);
            q < |doc| && doc[q] == t[0] && Spells(doc, q, t) && ValueToken(doc, p, f) == Token(s.kind, q, s.end)
  {
    hide ScanAfter, SpaceEnd, AfterComments, ValueGap;
    SpellsParts(doc, p, g, t);
    assert "" + t == t && Blank("") by { NoBlanks(); }
    LexAt(doc, p + |g|, "", t, f);
    ValueGapToken(doc, p, g, f);
  }

  // ---------------------------------------------------------------- special floats

  function SpecialOf(t: string): Option<Double> {
    if t == "NaN" then Some(NAN)
    else if t == "Infinity" || t == "+Infinity" then Some(INFINITY)
    else if t == "-Infinity" then Some(MINUS_INFINITY)
    else None
  }

  function SpecialKind(t: string): TokenKind {
    if t == "NaN" then NanToken else if t == "-Infinity" then NegInf else PosInf
  }

  lemma SpecialScan(doc: string, q: nat, t: string, f: Features)
    requires SpecialOf(t).Some? && Spells(doc, q, t)
    ensures var s := ScanAfter(doc, t[0], q + 1, f);
            if f.allowSpecialFloats then s == Scan(SpecialKind(t), q + |t|) else s.kind == ErrorToken
  {
    SpellsTail(doc, q, t);
    if t == "NaN" { assert t[1..] == "aN"; }
    else if t == "Infinity" { assert t[1..] == "nfinity"; }
    else {
      SpellsAt(doc, q, t, 1);
      SpellsTail(doc, q + 1, t[1..]);
      assert t[1..][1..] == "nfinity";
    }
  }

  /** With the feature for it such a word is the number that it names, and without it is refused. */
  lemma SpecialFloat(doc: string, p: nat, g: string, t: string, room: nat, env: Env)
    requires ValueGap(g, env.f) && SpecialOf(t).Some? && Spells(doc, p, g + t) && room > 0
    ensures p <= |doc|
    ensures ParseValue(doc, p, room, env)
         == if env.f.allowSpecialFloats then Good(Real(SpecialOf(t).value), p + |g| + |t|) else Bad
  {
    hide ScanAfter, ValueToken, ValueGap, ParseItems, ParseMembers, Spells;
    SpellsParts(doc, p, g, t);
    SpecialScan(doc, p + |g|, t, env.f);
    TokenAfterGap(doc, p, g, t, env.f);
  }

  // ---------------------------------------------------------------- nulls left out

  /** Where a value is missing, there is a null with the feature for it; what comes next stays to be read. */
  lemma DroppedNull(doc: string, p: nat, g: string, c: char, room: nat, env: Env)
    requires ValueGap(g, env.f) && c in {',', ']', '}'} && Spells(doc, p, g + [c]) && room > 0
    ensures p <= |doc|
    ensures ParseValue(doc, p, room, env) == if env.f.allowDroppedNullPlaceholders then Good(Null, p + |g|) else Bad
  {
    hide ValueToken, ValueGap, ParseItems, ParseMembers;
    assert ScanAfter(doc, c, p + |g| + 1, env.f) == Scan(Mark(c), p + |g| + 1);
    TokenAfterGap(doc, p, g, [c], env.f);
  }

  // ---------------------------------------------------------------- single quotes

  /** No single quote in it without a backslash. */
  predicate SingleEscaped(b: string)
    decreases |b|
  {
    b == "" || (if b[0] == '\\' then |b| >= 2 && SingleEscaped(b[2..]) else b[0] != '\'' && SingleEscaped(b[1..]))
  }

  lemma {:induction false} SingleFound(doc: string, p: nat, b: string)
    requires SingleEscaped(b) && Spells(doc, p, b + "'")
    ensures p <= |doc| && QuoteEnd(doc, p, '\'') == Some(p + |b| + 1)
    decreases |b|
  {
    SpellsAt(doc, p, b + "'", 0);
    if b != "" {
      var k := if doc[p] == '\\' then 2 else 1;
      assert b + "'" == b[..k] + (b[k..] + "'");
      SpellsParts(doc, p, b[..k], b[k..] + "'");
      SingleFound(doc, p + k, b[k..]);
    }
  }

  /** A text is decoded up to the first double quote without a backslash, whatever follows. */
  lemma {:induction false} DecodedUpTo(ps: seq<JsonSpelling.Piece>, s: string, rest: string)
    requires JsonSpelling.Spells(ps, s) && (rest == "" || rest[0] == '"')
    ensures Decoded(JsonSpelling.Text(ps) + rest) == Some(s)
    decreases ps
  {
    hide JsonSpelling.Means, JsonSpelling.PieceText, Decoded;
    if ps == [] {
      assert JsonSpelling.Text(ps) + rest == rest;
      DecodedQuote(rest);
    } else {
      var n: nat :| n <= |s| && JsonSpelling.Means(ps[0], s[..n]) && JsonSpelling.Spells(ps[1..], s[n..]);
      DecodedUpTo(ps[1..], s[n..], rest);
      var more := JsonSpelling.Text(ps[1..]) + rest;
      JsonSpelling.PieceDecoded(ps[0], s[..n], more);
      assert JsonSpelling.Text(ps) + rest == JsonSpelling.PieceText(ps[0]) + more;
      assert s == s[..n] + s[n..];
    }
  }

  lemma DecodedQuote(rest: string)
    requires rest == "" || rest[0] == '"'
    ensures Decoded(rest) == Some("")
  {}

  lemma SingleScan(doc: string, q: nat, t: string, f: Features)
    requires SingleEscaped(t) && Spells(doc, q, "'" + t + "'")
    ensures q < |doc|
    ensures var s := ScanAfter(doc, '\'', q + 1, f);
            if f.allowSingleQuotes then s == Scan(StringToken, q + |t| + 2) else s.kind == ErrorToken
  {
    hide SingleEscaped, QuoteEnd;
    assert "'" + t + "'" == "'" + (t + "'");
    SpellsParts(doc, q, "'", t + "'");
    SingleFound(doc, q + 1, t);
  }

  /** With the feature for it a string may stand in single quotes. It is spelled as in double quotes, but is
      taken to end at a double quote inside; a single quote inside cannot be spelled with a backslash. */
  lemma SingleQuoted(doc: string, p: nat, g: string, ps: seq<JsonSpelling.Piece>, s: string, rest: string, room: nat, env: Env)
    requires ValueGap(g, env.f) && room > 0 && JsonSpelling.Spells(ps, s) && (rest == "" || rest[0] == '"')
    requires var t := JsonSpelling.Text(ps) + rest; SingleEscaped(t) && Spells(doc, p, g + ("'" + t + "'"))
    ensures p <= |doc|
    ensures ParseValue(doc, p, room, env)
         == if env.f.allowSingleQuotes then Good(Str(s), p + |g| + |JsonSpelling.Text(ps)| + |rest| + 2) else Bad
  {
    hide ScanAfter, ValueToken, ValueGap, ParseItems, ParseMembers, Spells, SingleEscaped, Decoded, JsonSpelling.Spells, JsonSpelling.Text;
    var t := JsonSpelling.Text(ps) + rest;
    var w, q := "'" + t + "'", p + |g|;
    SpellsParts(doc, p, g, w);
    SingleScan(doc, q, t, env.f);
    TokenAfterGap(doc, p, g, w, env.f);
    DecodedUpTo(ps, s, rest);
    if env.f.allowSingleQuotes { SingleInside(doc, q, t); }
  }

  lemma SingleInside(doc: string, q: nat, t: string)
    requires Spells(doc, q, "'" + t + "'")
    ensures Inner(doc, Token(StringToken, q, q + |t| + 2)) == t
  {
    var w := "'" + t + "'";
    assert w == "'" + (t + "'");
    SpellsParts(doc, q, "'", t + "'");
    SpellsParts(doc, q + 1, t, "'");
  }

  // ---------------------------------------------------------------- numbers as names

  /** With the feature for it an integer in range is the name of a member: its value written in decimal. So
      two spellings of a number are one name. */
  lemma NumericName(doc: string, t: Token, env: Env)
    requires t.start < t.end <= |doc| && t.kind == NumberToken && IntegerOf(doc[t.start..t.end]).Some?
    ensures NameOf(doc, t, env)
         == if env.f.allowNumericKeys then Some(IntText(IntegerValue(doc[t.start..t.end]))) else None
  {
    hide IntText, IntegerToken, IntegerValue;
  }

  // ---------------------------------------------------------------- text after the value

  /** The text of a tree at the beginning of a document, after a gap. */
  predicate Begins(doc: string, g: string, n: Node, env: Env) {
    && ValueGap(g, env.f) && Fits(n, env.f.stackLimit, env) && (env.f.strictRoot ==> !n.Atom?)
    && Spells(doc, Beginning(doc, env.f), g + Text(n))
  }

  /** Where text after the value is allowed, the text of a tree is read whatever follows, unless a number
      goes on there. */
  lemma TextFollowed(doc: string, g: string, n: Node, env: Env)
    requires !env.f.failIfExtra && Begins(doc, g, n, env) && Delimited(doc, Beginning(doc, env.f) + |g| + |Text(n)|)
    ensures ParseDocument(doc, env) == Good(Meaning(n, env), Beginning(doc, env.f) + |g| + |Text(n)|)
    ensures DocumentKept(doc, env) <==> Regular(n, env.f)
  {
    hide Text, Meaning, Proper, Depth, KeysDiffer, ParseValue, ValueKept, ValueToken, Delimited, ValueGap, Regular;
    ParsesValue(doc, Beginning(doc, env.f), g, n, env.f.stackLimit, env);
    AtomIsScalar(n, env);
  }

  /** And every document that is accepted then begins with the text of a tree that means the value. */
  lemma AcceptedBegins(doc: string, env: Env)
    requires Plain(env.f) && ParseDocument(doc, env).Good?
    ensures exists g, n :: Begins(doc, g, n, env)
              && ParseDocument(doc, env) == Good(Meaning(n, env), Beginning(doc, env.f) + |g| + |Text(n)|)
  {
    hide Text, Meaning, Proper, Depth, KeysDiffer, ParseValue, ValueKept, ValueToken, ValueGap, Plain, Beginning, Regular, DocumentKept;
    var g, n := ValueSound(doc, Beginning(doc, env.f), env.f.stackLimit, env);
    AtomIsScalar(n, env);
    assert Begins(doc, g, n, env);
  }
}
