/** `OurReader`: a cursor over the document, a stack of the values under construction, and the list
    of errors. For every document it comes to what `JsonParse` says. The stack holds the values
    themselves; where the code pops a pointer into the parent, the finished value is stored back into
    the parent. */
module JsonReader {
  import opened Numbers
  import opened HttpTypes
  import opened Options
  import opened JsonValues
  import opened JsonUnicode
  import opened JsonNumbers
  import opened JsonQuoting
  import opened JsonTokens
  import opened JsonParse

  /** The error messages, by what they say. */
  datatype Message =
    | FourDigitsExpected | HexDigitExpected | SixCharactersExpected | SecondEscapeExpected
    | EmptyEscape | BadEscape | NotANumber(text: string) | ValueExpected
    | CommaOrBracketExpected | MemberExpected | DuplicateKey(key: string) | ColonExpected | CommaOrBraceExpected
    | ExtraText | ContainerExpected

  datatype ErrorInfo = ErrorInfo(message: Message, token: Token, extra: nat)

  /** What a method returns, or the exception it throws. */
  datatype Step = Done(ok: bool) | Thrown(exception: Exception)

  class OurReader {
    const env: Env                             // the features, and the conversions of doubles
    var document: string
    var begin: nat
    var current: nat
    var nodes: seq<Value>
    var errors: seq<ErrorInfo>

    constructor (e: Env)
      ensures env == e
      ensures document == "" && begin == current == 0 && nodes == [] && errors == []
    {
      env := e;
      document, begin, current, nodes, errors := "", 0, 0, [], [];
    }

    // -------------------------------------------------------------- scanning

    /** The character read, NUL at the end of the document. */
    method GetNextChar() returns (c: char)
      requires current <= |document|
      modifies `current
      ensures c == CharAt(document, old(current)) && current == Min(old(current) + 1, |document|)
    {
      if current == |document| { return '\0'; }
      c := document[current];
      current := current + 1;
    }

    method SkipSpaces()
      requires current <= |document|
      modifies `current
      ensures current == SpaceEnd(document, old(current))
    {
      while current != |document|
        invariant old(current) <= current <= |document|
        invariant SpaceEnd(document, old(current)) == SpaceEnd(document, current)
        decreases |document| - current
      {
        if IsBlank(document[current]) { current := current + 1; } else { break; }
      }
    }

    method SkipBom(skip: bool)
      requires begin == current == 0 && skip == env.f.skipBom
      modifies `begin, `current
      ensures begin == current == Beginning(document, env.f)
    {
      if skip && |document| >= 3 && document[..3] == BOM {
        begin := begin + 3;
        current := begin;
      }
      assert |document| >= 3 ==> document[0..3] == document[..3];
    }

    /** From the last character back to the first. */
    method Match(pattern: string) returns (ok: bool)
      requires current <= |document|
      modifies `current
      ensures ok <==> Spells(document, old(current), pattern)
      ensures current == old(current) + (if ok then |pattern| else 0) <= |document|
    {
      if |document| - current < |pattern| { return false; }
      var index: nat := |pattern|;
      while index > 0
        invariant index <= |pattern| && current == old(current)
        invariant forall i | index <= i < |pattern| :: document[current + i] == pattern[i]
      {
        index := index - 1;
        if document[current + index] != pattern[index] { return false; }
      }
      current := current + |pattern|;
      return true;
    }

    method ReadCStyleComment() returns (ok: bool)
      requires current <= |document|
      modifies `current
      ensures var q := StarEnd(document, old(current)); (ok <==> CharAt(document, q) == '/') && current == Min(q + 1, |document|)
    {
      while current + 1 < |document|
        invariant old(current) <= current <= |document|
        invariant StarEnd(document, old(current)) == StarEnd(document, current)
        decreases |document| - current
      {
        ghost var at := current;
        var c := GetNextChar();
        if c == '*' && document[current] == '/' {
          assert current == StarEnd(document, at);
          break;
        }
      }
      assert current == StarEnd(document, old(current));
      var last := GetNextChar();
      return last == '/';
    }

    /** Up to the end of the line; a carriage return and a line feed count as one. */
    method ReadCppStyleComment()
      requires current <= |document|
      modifies `current
      ensures current == LineEnd(document, old(current))
    {
      var open := true;
      while current != |document| && open
        invariant old(current) <= current <= |document|
        invariant LineEnd(document, old(current)) == if open then LineEnd(document, current) else current
        decreases open, |document| - current
      {
        var c := GetNextChar();
        if c == '\n' {
          open := false;
        } else if c == '\r' {
          if current != |document| && document[current] == '\n' { var lf := GetNextChar(); }
          open := false;
        }
      }
    }

    method ReadComment() returns (ok: bool)
      requires current <= |document|
      modifies `current
      ensures var s := CommentScan(document, old(current)); (ok <==> s.kind == CommentToken) && current == s.end
    {
      hide StarEnd, LineEnd;
      var c := GetNextChar();
      if c == '*' {
        ok := ReadCStyleComment();
      } else if c == '/' {
        ReadCppStyleComment();
        ok := true;
      } else {
        ok := false;
      }
    }

    /** `*p++`, or NUL at the end; the cursor is left at the character itself. */
    method Peek(p: nat) returns (c: char, next: nat)
      requires p <= |document|
      modifies `current
      ensures current == p && c == CharAt(document, p) && next == Min(p + 1, |document|)
    {
      current := p;
      if p < |document| { return document[p], p + 1; }
      return '\0', p;
    }

    /** The digits from `p` on; `c` is the character after them, at the cursor. */
    method ReadDigits(p: nat) returns (c: char, next: nat)
      requires p <= |document|
      modifies `current
      ensures current == DigitsEnd(document, p) && c == CharAt(document, current) && next == Min(current + 1, |document|)
    {
      c, next := Peek(p);
      while IsNum(c)
        invariant p <= current <= |document| && DigitsEnd(document, p) == DigitsEnd(document, current)
        invariant c == CharAt(document, current) && next == Min(current + 1, |document|)
        decreases |document| - current
      {
        c, next := Peek(next);
      }
    }

    /** False for what may be an infinity, with the cursor after its first letter. */
    method ReadNumber(checkInf: bool) returns (ok: bool)
      requires current <= |document|
      modifies `current
      ensures ok <==> !(checkInf && CharAt(document, old(current)) == 'I')
      ensures current == if ok then NumberEnd(document, old(current)) else old(current) + 1
    {
      hide DigitsEnd, ExponentEnd;
      if checkInf && current != |document| && document[current] == 'I' {
        current := current + 1;
        return false;
      }
      var c, p := ReadDigits(current);
      if c == '.' {
        c, p := ReadDigits(p);
      }
      ReadExponent(c, p);
      return true;
    }

    /** The exponent, after the number up to there; `c` is the character at the cursor. */
    method ReadExponent(c0: char, next: nat)
      requires current <= |document| && c0 == CharAt(document, current) && next == Min(current + 1, |document|)
      modifies `current
      ensures current == ExponentEnd(document, old(current))
    {
      hide DigitsEnd;
      var c, p := c0, next;
      if c == 'e' || c == 'E' {
        c, p := Peek(p);
        if c == '+' || c == '-' {
          c, p := Peek(p);
        }
        DigitsFrom(document, current);
        if IsNum(c) {
          c, p := ReadDigits(p);
        }
      }
    }

    /** The rest of a string up to the first closing quote that has no backslash before it. */
    method ReadQuoted(quote: char) returns (ok: bool)
      requires current <= |document| && quote in {'"', '\''}
      modifies `current
      ensures var r := QuoteEnd(document, old(current), quote); (ok <==> r.Some?) && current == if ok then r.value else |document|
    {
      var c := '\0';
      while current != |document|
        invariant old(current) <= current <= |document| && c != quote
        invariant QuoteEnd(document, old(current), quote) == QuoteEnd(document, current, quote)
        decreases |document| - current
      {
        c := GetNextChar();
        if c == '\\' {
          var skipped := GetNextChar();
        } else if c == quote {
          break;
        }
      }
      return c == quote;
    }

    /** A word of which the first letter has been read. */
    method ReadWord(rest: string, word: TokenKind) returns (ok: bool, kind: TokenKind)
      requires current <= |document| && word != ErrorToken
      modifies `current
      ensures kind == word && Scan(if ok then kind else ErrorToken, current) == Word(document, old(current), rest, word)
    {
      kind := word;
      ok := Match(rest);
    }

    /** A word that is only known as a special float. */
    method ReadSpecial(rest: string, special: TokenKind) returns (ok: bool, kind: TokenKind)
      requires current <= |document| && special != ErrorToken
      modifies `current
      ensures Scan(if ok then kind else ErrorToken, current) == Special(document, old(current), rest, special, env.f)
      ensures ok ==> kind == special
    {
      if !env.f.allowSpecialFloats { return false, ErrorToken; }
      ok := Match(rest);
      kind := special;
    }

    /** A number, or an infinity, after its sign. */
    method ReadSigned(infinity: TokenKind) returns (ok: bool, kind: TokenKind)
      requires current <= |document| && infinity != ErrorToken
      modifies `current
      ensures Scan(if ok then kind else ErrorToken, current) == Signed(document, old(current), infinity, env.f)
      ensures ok ==> kind != ErrorToken
    {
      hide NumberEnd;
      ok := ReadNumber(true);
      if ok {
        kind := NumberToken;
      } else {
        kind := infinity;
        ok := false;
        if env.f.allowSpecialFloats { ok := Match("nfinity"); }
      }
    }

    /** The rest of a token of more than one character, of which `c` has been read. */
    method ReadLongToken(c: char) returns (ok: bool, kind: TokenKind)
      requires current <= |document|
      modifies `current
      ensures Scan(if ok then kind else ErrorToken, current) == LongScan(document, c, old(current), env.f)
      ensures ok ==> kind != ErrorToken
    {
      hide QuoteEnd, CommentScan, NumberEnd, Signed, Special, Word;
      kind := ErrorToken;
      match c {
        case '"' =>
          kind := StringToken;
          ok := ReadQuoted('"');
        case '\'' =>
          ok := false;
          if env.f.allowSingleQuotes {
            kind := StringToken;
            ok := ReadQuoted('\'');
          }
        case '/' =>
          kind := CommentToken;
          assert CommentScan(document, current).kind in {CommentToken, ErrorToken} by { CommentKinds(document, current); }
          ok := ReadComment();
        case '-' => ok, kind := ReadSigned(NegInf);
        case '+' => ok, kind := ReadSigned(PosInf);
        case 't' => ok, kind := ReadWord("rue", TrueToken);
        case 'f' => ok, kind := ReadWord("alse", FalseToken);
        case 'n' => ok, kind := ReadWord("ull", NullToken);
        case 'N' => ok, kind := ReadSpecial("aN", NanToken);
        case 'I' => ok, kind := ReadSpecial("nfinity", PosInf);
        case _ =>
          ok := IsNum(c);
          if ok {
            kind := NumberToken;
            var number := ReadNumber(false);
          }
      }
    }

    method ReadToken() returns (ok: bool, token: Token)
      requires current <= |document|
      modifies `current
      ensures token == Lex(document, old(current), env.f) && current == token.end
      ensures ok <==> token.kind != ErrorToken
    {
      hide LongScan, SpaceEnd;
      SkipSpaces();
      var start := current;
      var c := GetNextChar();
      var kind;
      ok := true;
      match c {
        case '{' => kind := ObjectBegin;
        case '}' => kind := ObjectEnd;
        case '[' => kind := ArrayBegin;
        case ']' => kind := ArrayEnd;
        case ',' => kind := ArraySeparator;
        case ':' => kind := MemberSeparator;
        case '\0' => kind := EndOfStream;
        case _ => ok, kind := ReadLongToken(c);
      }
      if !ok { kind := ErrorToken; }
      token := Token(kind, start, current);
    }

    // -------------------------------------------------------------- errors

    method AddError(message: Message, token: Token, extra: nat) returns (ok: bool)
      modifies `errors
      ensures !ok && errors == old(errors) + [ErrorInfo(message, token, extra)] && old(errors) < errors
    {
      errors := errors + [ErrorInfo(message, token, extra)];
      return false;
    }

    /** Skip to a token, or to the end; errors on the way do not count. */
    method RecoverFromError(skipUntil: TokenKind) returns (ok: bool)
      requires current <= |document|
      modifies `current, `errors
      ensures !ok && errors == old(errors) && old(current) <= current <= |document|
    {
      var errorCount := |errors|;
      var more := true;
      while more
        invariant old(current) <= current <= |document| && errors == old(errors)
        decreases more, |document| - current
      {
        var read, skip := ReadToken();
        if !read { errors := errors[..errorCount]; }
        if skip.kind == skipUntil || skip.kind == EndOfStream { more := false; }
      }
      errors := errors[..errorCount];
      return false;
    }

    method AddErrorAndRecover(message: Message, token: Token, skipUntil: TokenKind) returns (ok: bool)
      requires current <= |document|
      modifies `current, `errors
      ensures !ok && |errors| > |old(errors)| && old(errors) <= errors && old(current) <= current <= |document|
    {
      ok := AddError(message, token, 0);
      ok := RecoverFromError(skipUntil);
    }

    // -------------------------------------------------------------- strings

    /** Four hexadecimal digits at `from`; `to` is where reading them came to. */
    method DecodeUnicodeEscapeSequence(token: Token, from: nat, end: nat) returns (ok: bool, to: nat, unicode: nat)
      requires from <= end <= |document|
      modifies `errors
      ensures ok <==> Hex4(document[from..end]).Some?
      ensures from <= to <= end
      ensures if ok then to == from + 4 && Hex4(document[from..end]) == Some(unicode) && errors == old(errors)
              else old(errors) < errors
    {
      to, unicode := from, 0;
      if end - from < 4 {
        ok := AddError(FourDigitsExpected, token, from);
        return;
      }
      ghost var t := document[from..end];
      var index := 0;
      while index < 4
        invariant index <= 4 && to == from + index && errors == old(errors)
        invariant forall i | 0 <= i < index :: Unhex(t[i]) >= 0
        invariant unicode == HexValue(t, index)
      {
        var c := document[to];
        assert c == t[index];
        to := to + 1;
        index := index + 1;
        if Unhex(c) < 0 {
          ok := AddError(HexDigitExpected, token, to);
          return;
        }
        unicode := unicode * 16 + Unhex(c);
      }
      FourDigits(t);
      ok := true;
    }

    method DecodeUnicodeCodePoint(token: Token, from: nat, end: nat) returns (ok: bool, to: nat, unicode: nat)
      requires from <= end <= |document|
      modifies `errors
      ensures ok <==> DecodePoint(document[from..end]).Some?
      ensures from <= to <= end
      ensures if ok then DecodePoint(document[from..end]) == Some(Point(unicode, to - from)) && errors == old(errors)
              else old(errors) < errors
    {
      hide Hex4;
      ok, to, unicode := DecodeUnicodeEscapeSequence(token, from, end);
      if ok && 0xD800 <= unicode <= 0xDBFF {
        ok, to, unicode := DecodeLowSurrogate(token, from, to, end, unicode);
      }
    }

    /** The second half of a surrogate pair. */
    method DecodeLowSurrogate(token: Token, ghost from: nat, at: nat, end: nat, high: nat)
      returns (ok: bool, to: nat, unicode: nat)
      requires from + 4 == at <= end <= |document|
      requires Hex4(document[from..end]) == Some(high) && 0xD800 <= high <= 0xDBFF
      modifies `errors
      ensures ok <==> DecodePoint(document[from..end]).Some?
      ensures from <= to <= end
      ensures if ok then DecodePoint(document[from..end]) == Some(Point(unicode, to - from)) && errors == old(errors)
              else old(errors) < errors
    {
      hide Hex4, DecodePoint, PairValue;
      ghost var t := document[from..end];
      PairPoint(t, high);
      to, unicode := at, high;
      if end - at < 6 {
        ok := AddError(SixCharactersExpected, token, to);
        return;
      }
      assert t[4] == document[at] && t[5] == document[at + 1] && t[6..] == document[at + 2..end];
      if document[at] == '\\' && document[at + 1] == 'u' {
        var low;
        ok, to, low := DecodeUnicodeEscapeSequence(token, at + 2, end);
        if ok { unicode := PairValue(high, low); }
      } else {
        ok := AddError(SecondEscapeExpected, token, to + 1);
      }
    }

    /** `decodeString`: what a string token stands for. */
    method DecodeString(token: Token) returns (ok: bool, decoded: string)
      requires token.start + 2 <= token.end <= |document|
      modifies `errors
      ensures ok <==> Decoded(document[token.start + 1..token.end - 1]).Some?
      ensures if ok then Decoded(document[token.start + 1..token.end - 1]) == Some(decoded) && errors == old(errors)
              else old(errors) < errors
    {
      hide Decoded, DecodePoint, Unescape, ToUtf8;
      var at, end := token.start + 1, token.end - 1;
      ghost var inner := document[at..end];
      decoded := "";
      assert After("", Decoded(inner)) == Decoded(inner) by { AfterNothing(Decoded(inner)); }
      while at != end
        invariant token.start < at <= end && errors == old(errors)
        invariant Decoded(inner) == After(decoded, Decoded(document[at..end]))
        decreases end - at
      {
        ghost var rest, before := document[at..end], decoded;
        SliceOn(document, at, end, 1);
        DecodedStep(rest);
        var c := document[at];
        at := at + 1;
        if c == '"' {
          assert before + "" == before;
          return true, decoded;
        }
        if c != '\\' {
          decoded := decoded + [c];
          AfterTwice(before, [c], Decoded(document[at..end]));
        } else {
          if at == end {
            ok := AddError(EmptyEscape, token, at);
            return;
          }
          var escape := document[at];
          at := at + 1;
          SliceOn(document, at - 2, end, 2);
          assert rest[1] == escape && rest[2..] == document[at..end];
          if escape == 'u' {
            var unicode;
            ghost var from := at;
            ok, at, unicode := DecodeUnicodeCodePoint(token, at, end);
            if !ok { return; }
            decoded := decoded + ToUtf8(unicode);
            SliceOn(document, from - 2, end, 2 + (at - from));
            AfterTwice(before, ToUtf8(unicode), Decoded(document[at..end]));
          } else {
            var plain := Unescape(escape);
            if plain.None? {
              ok := AddError(BadEscape, token, at);
              return;
            }
            decoded := decoded + [plain.value];
            AfterTwice(before, [plain.value], Decoded(document[at..end]));
          }
        }
      }
      assert document[at..end] == "" && decoded + "" == decoded;
      DecodedNothing();
      return true, decoded;
    }

    // -------------------------------------------------------------- numbers

    /** `decodeDouble`. */
    method DecodeDouble(token: Token) returns (ok: bool, decoded: Value)
      requires token.start <= token.end <= |document|
      modifies `errors
      ensures var d := env.double(document[token.start..token.end]);
              (ok <==> d.Some?) && if ok then decoded == Real(d.value) && errors == old(errors) else old(errors) < errors
    {
      var text := document[token.start..token.end];
      var d := env.double(text);
      decoded := Null;
      if d.None? {
        ok := AddError(NotANumber(text), token, 0);
      } else {
        ok, decoded := true, Real(d.value);
      }
    }

    method DecodeNumber(token: Token) returns (ok: bool, decoded: Value)
      requires token.start < token.end <= |document|
      modifies `errors
      ensures var v := NumberOf(document[token.start..token.end], env);
              (ok <==> v.Some?) && if ok then decoded == v.value && errors == old(errors) else old(errors) < errors
    {
      hide IntegerToken, IntegerValue;
      var r := DecodeInteger(document[token.start..token.end]);
      if r.Some? { return true, r.value; }
      ok, decoded := DecodeDouble(token);
    }

    // -------------------------------------------------------------- values

    /** Replaces the value under construction. */
    method SetCurrentValue(v: Value)
      requires nodes != []
      modifies `nodes
      ensures nodes != [] && Below(nodes) == old(Below(nodes)) && Top(nodes) == v && |nodes| == |old(nodes)|
    {
      nodes := Below(nodes) + [v];
    }

    method SkipCommentTokens() returns (token: Token)
      requires current <= |document|
      modifies `current
      ensures token == ValueToken(document, old(current), env.f) && current == token.end
    {
      hide Lex;
      var ok;
      if env.f.allowComments {
        ok, token := SkipComments();
      } else {
        ok, token := ReadToken();
      }
    }

    /** Tokens up to one that is no comment. */
    method SkipComments() returns (ok: bool, token: Token)
      requires current <= |document|
      modifies `current
      ensures token == AfterComments(document, old(current), env.f) && current == token.end
      ensures ok <==> token.kind != ErrorToken
    {
      hide Lex;
      ok, token := ReadToken();
      while token.kind == CommentToken && ok
        invariant token.end == current <= |document| && (ok <==> token.kind != ErrorToken)
        invariant if token.kind == CommentToken then AfterComments(document, old(current), env.f) == AfterComments(document, current, env.f)
                  else token == AfterComments(document, old(current), env.f)
        decreases |document| - current, token.kind == CommentToken
      {
        ok, token := ReadToken();
      }
    }

    /** How deep the value under construction may still be. */
    function Room(): int
      reads this
    {
      env.f.stackLimit + 1 - |nodes|
    }

    /** A separator where a value should be: a null before it, if that is allowed. */
    method DroppedNull(token: Token) returns (ok: bool)
      requires 0 < current && nodes != []
      modifies `current, `nodes, `errors
      ensures ok <==> env.f.allowDroppedNullPlaceholders
      ensures current == old(current) - if ok then 1 else 0
      ensures Returned(Done(ok), old(nodes), nodes, old(errors), errors)
      ensures ok ==> Top(nodes) == Null
    {
      if env.f.allowDroppedNullPlaceholders {
        current := current - 1;
        SetCurrentValue(Null);
        ok := true;
      } else {
        ok := AddError(ValueExpected, token, 0);
      }
    }

    /** The value of a token that is one by itself. */
    method ReadScalar(token: Token) returns (ok: bool)
      requires token.start <= token.end == current <= |document| && nodes != []
      requires token.kind != EndOfStream ==> token.start < token.end
      requires token.kind == StringToken ==> token.start + 2 <= token.end
      modifies `current, `nodes, `errors
      ensures token.start <= current <= |document| && Returned(Done(ok), old(nodes), nodes, old(errors), errors)
      ensures Agrees(ParseScalar(document, token, env), Done(ok), Top(nodes), current)
    {
      hide Decoded, NumberOf;
      ok := true;
      match token.kind {
        case NumberToken =>
          var v;
          ok, v := DecodeNumber(token);
          if ok { SetCurrentValue(v); }
        case StringToken =>
          var s;
          ok, s := DecodeString(token);
          if ok { SetCurrentValue(Str(s)); }
        case TrueToken => SetCurrentValue(Bool(true));
        case FalseToken => SetCurrentValue(Bool(false));
        case NullToken => SetCurrentValue(Null);
        case NanToken => SetCurrentValue(Real(NAN));
        case PosInf => SetCurrentValue(Real(INFINITY));
        case NegInf => SetCurrentValue(Real(MINUS_INFINITY));
        case ArraySeparator => ok := DroppedNull(token);
        case ObjectEnd => ok := DroppedNull(token);
        case ArrayEnd => ok := DroppedNull(token);
        case _ => ok := AddError(ValueExpected, token, 0);
      }
    }

    /** Reads one value into the top of the stack. */
    method ReadValue() returns (r: Step)
      requires current <= |document| && nodes != []
      modifies `current, `nodes, `errors
      ensures old(current) <= current <= |document| && Returned(r, old(nodes), nodes, old(errors), errors)
      ensures Agrees(ParseValue(document, old(current), old(Room()), env), r, Top(nodes), current)
      decreases |document| - current, 0
    {
      hide ParseItems, ParseMembers, ParseScalar, ValueToken;
      if |nodes| > env.f.stackLimit {
        return Thrown(StackLimitExceeded);
      }
      var token := SkipCommentTokens();
      if token.kind == ObjectBegin {
        r := ReadObject();
      } else if token.kind == ArrayBegin {
        r := ReadArray();
      } else {
        ScalarBounds(document, token, env);
        var ok := ReadScalar(token);
        r := Done(ok);
      }
    }

    // -------------------------------------------------------------- arrays

    /** `currentValue()[index++]`, read as a value of its own. */
    method ReadElement() returns (r: Step)
      requires current <= |document| && nodes != [] && Top(nodes).Arr?
      modifies `current, `nodes, `errors
      ensures old(current) <= current <= |document| && Returned(r, old(nodes), nodes, old(errors), errors)
      ensures r.Done? ==> Top(nodes).Arr?
      ensures match ParseValue(document, old(current), old(Room()) - 1, env)
              case Good(v, e) => r == Done(true) && Top(nodes) == Arr(old(Top(nodes)).items + [v]) && current == e
              case Bad => r == Done(false)
              case Throws(x) => r == Thrown(x)
      decreases |document| - current, 1
    {
      hide ParseValue;
      var items := Top(nodes).items;
      SetCurrentValue(Arr(items + [Null]));
      nodes := nodes + [Null];
      assert Below(nodes) == nodes[..|old(nodes)|];
      r := ReadValue();
      if r.Done? {
        var v := Top(nodes);
        nodes := Below(nodes);
        SetCurrentValue(Arr(items + [v]));
      }
    }

    /** One round of the loop over an array: its end, or an item and the token after it. */
    method ReadItem() returns (next: Next)
      requires current <= |document| && nodes != [] && Top(nodes).Arr?
      modifies `current, `nodes, `errors
      ensures old(current) <= current <= |document| && Left(next, old(nodes), nodes, old(errors), errors)
      ensures var o := ParseItems(document, old(current), old(Room()), old(Top(nodes)).items, env);
              match next
              case Return(step) => Agrees(o, step, Top(nodes), current)
              case GoOn =>
                current > old(current) && Top(nodes).Arr?
                && o == ParseItems(document, current, old(Room()), Top(nodes).items, env)
      decreases |document| - current, 2
    {
      hide ParseValue, SpaceEnd, AfterComments, Lex;
      SkipSpaces();
      if current != |document| && document[current] == ']'
         && (Top(nodes).items == [] || (env.f.allowTrailingCommas && !env.f.allowDroppedNullPlaceholders))
      {
        BracketThere(document, old(current), env.f);
        var ok, endArray := ReadToken();
        return Return(Done(true));
      }
      var r := ReadElement();
      if r.Thrown? { return Return(r); }
      if !r.ok {
        var recovered := RecoverFromError(ArrayEnd);
        return Return(Done(false));
      }
      var ok, token := SkipComments();
      if !ok || (token.kind != ArraySeparator && token.kind != ArrayEnd) {
        ok := AddErrorAndRecover(CommaOrBracketExpected, token, ArrayEnd);
        return Return(Done(false));
      }
      return if token.kind == ArrayEnd then Return(Done(true)) else GoOn;
    }

    /** The array after its opening bracket. */
    method ReadArray() returns (r: Step)
      requires current <= |document| && nodes != []
      modifies `current, `nodes, `errors
      ensures old(current) <= current <= |document| && Returned(r, old(nodes), nodes, old(errors), errors)
      ensures Agrees(ParseItems(document, old(current), old(Room()), [], env), r, Top(nodes), current)
      decreases |document| - current, 3
    {
      hide ParseItems;
      SetCurrentValue(Arr([]));
      var next := GoOn;
      while next.GoOn?
        invariant old(current) <= current <= |document| && Left(next, old(nodes), nodes, old(errors), errors)
        invariant var o := ParseItems(document, old(current), old(Room()), [], env);
                  match next
                  case Return(step) => Agrees(o, step, Top(nodes), current)
                  case GoOn => Top(nodes).Arr? && o == ParseItems(document, current, Room(), Top(nodes).items, env)
        decreases next.GoOn?, |document| - current
      {
        next := ReadItem();
      }
      return next.step;
    }

    // -------------------------------------------------------------- objects

    /** `asString` on a number. */
    method NumberAsText(v: Value) returns (s: string)
      requires v.Int? || v.UInt? || v.Real?
      ensures s == NumberText(v, env)
    {
      match v {
        case Int(i) => s := IntToString(i);
        case UInt(u) => s := UIntToString(u);
        case Real(d) => s := env.doubleText(d);
      }
    }

    /** The name of a member; or the end of the object; or neither, after the error. */
    method ReadName(last: string) returns (next: Name, token: Token)
      requires current <= |document|
      modifies `current, `errors
      ensures old(current) <= current <= |document|
      ensures var t := AfterComments(document, old(current), env.f);
              if t.kind == ObjectEnd && (last == "" || env.f.allowTrailingCommas) then
                next == Ends(true) && current == t.end && errors == old(errors)
              else if NameOf(document, t, env).None? then next == Ends(false) && old(errors) < errors
              else next == Is(NameOf(document, t, env).value) && current == t.end && errors == old(errors)
    {
      hide AfterComments, Decoded, NumberOf;
      var ok;
      ok, token := SkipComments();
      if ok && token.kind == ObjectEnd && (last == "" || env.f.allowTrailingCommas) {
        return Ends(true), token;
      }
      if ok && token.kind == StringToken {
        var name;
        ok, name := DecodeString(token);
        if ok { return Is(name), token; }
        ok := RecoverFromError(ObjectEnd);
        return Ends(false), token;
      }
      if ok && token.kind == NumberToken && env.f.allowNumericKeys {
        var v;
        ok, v := DecodeNumber(token);
        if ok {
          var name := NumberAsText(v);
          return Is(name), token;
        }
        ok := RecoverFromError(ObjectEnd);
        return Ends(false), token;
      }
      ok := AddErrorAndRecover(MemberExpected, token, ObjectEnd);
      return Ends(false), token;
    }

    /** `currentValue()[name]`, read as a value of its own. */
    method ReadMember(name: string) returns (r: Step)
      requires current <= |document| && nodes != [] && Top(nodes).Obj?
      modifies `current, `nodes, `errors
      ensures old(current) <= current <= |document| && Returned(r, old(nodes), nodes, old(errors), errors)
      ensures r.Done? ==> Top(nodes).Obj?
      ensures match ParseValue(document, old(current), old(Room()) - 1, env)
              case Good(v, e) => r == Done(true) && Top(nodes) == Obj(Put(old(Top(nodes)).members, name, v)) && current == e
              case Bad => r == Done(false)
              case Throws(x) => r == Thrown(x)
      decreases |document| - current, 1
    {
      hide ParseValue, Put, Get;
      var members := Top(nodes).members;
      var v := Get(members, name);
      SetCurrentValue(Obj(Put(members, name, v)));
      nodes := nodes + [v];
      assert Below(nodes) == nodes[..|old(nodes)|];
      r := ReadValue();
      if r.Done? {
        v := Top(nodes);
        nodes := Below(nodes);
        SetCurrentValue(Obj(Put(members, name, v)));
      }
    }

    /** The token after a member. */
    method ReadMemberEnd() returns (ok: bool, token: Token)
      requires current <= |document|
      modifies `current
      ensures old(current) <= current <= |document|
      ensures var t := MemberEnd(document, old(current), env.f); (ok <==> t.Some?) && (ok ==> token == t.value && current == token.end)
    {
      hide Lex, AfterComments;
      ok, token := ReadToken();
      if token.kind != ObjectEnd && token.kind != ArraySeparator && token.kind != CommentToken { ok := false; }
      if ok && token.kind == CommentToken {
        var finalizeOk;
        finalizeOk, token := SkipComments();
      }
    }

    /** The checks on a name, and the colon after it. */
    method ReadColon(name: string, token: Token) returns (r: Step)
      requires current <= |document| && nodes != [] && Top(nodes).Obj?
      modifies `current, `errors
      ensures old(current) <= current <= |document|
      ensures r.Done? ==> if r.ok then errors == old(errors) else old(errors) < errors
      ensures var colon := Lex(document, old(current), env.f);
              r == if |name| >= KEY_LIMIT then Thrown(KeyTooLong)
                   else Done(!(env.f.rejectDupKeys && IsMember(Top(nodes).members, name)) && colon.kind == MemberSeparator)
      ensures r == Done(true) ==> current == Lex(document, old(current), env.f).end
    {
      hide Lex, IsMember;
      if |name| >= KEY_LIMIT { return Thrown(KeyTooLong); }
      if env.f.rejectDupKeys && IsMember(Top(nodes).members, name) {
        var recovered := AddErrorAndRecover(DuplicateKey(name), token, ObjectEnd);
        return Done(false);
      }
      var ok, colon := ReadToken();
      if !ok || colon.kind != MemberSeparator {
        ok := AddErrorAndRecover(ColonExpected, colon, ObjectEnd);
        return Done(false);
      }
      return Done(true);
    }

    /** One round of the loop over an object: its end, or a member and the token after it. */
    method ReadEntry(last: string) returns (next: Next, name: string)
      requires current <= |document| && nodes != [] && Top(nodes).Obj?
      modifies `current, `nodes, `errors
      ensures old(current) <= current <= |document| && Left(next, old(nodes), nodes, old(errors), errors)
      ensures var o := ParseMembers(document, old(current), old(Room()), old(Top(nodes)).members, last, env);
              match next
              case Return(step) => Agrees(o, step, Top(nodes), current)
              case GoOn =>
                current > old(current) && Top(nodes).Obj?
                && o == ParseMembers(document, current, old(Room()), Top(nodes).members, name, env)
      decreases |document| - current, 2
    {
      hide ParseValue, AfterComments, Lex, NameOf, MemberEnd, Put, IsMember;
      name := "";
      var read, token := ReadName(last);
      if read.Ends? {
        return Return(Done(read.ok)), name;
      }
      name := read.name;
      var r := ReadColon(name, token);
      if r.Thrown? || !r.ok { return Return(r), name; }
      r := ReadMember(name);
      if r.Thrown? { return Return(r), name; }
      if !r.ok {
        var recovered := RecoverFromError(ObjectEnd);
        return Return(Done(false)), name;
      }
      var ok, comma := ReadMemberEnd();
      if !ok {
        ok := AddErrorAndRecover(CommaOrBraceExpected, comma, ObjectEnd);
        return Return(Done(false)), name;
      }
      next := if comma.kind == ObjectEnd then Return(Done(true)) else GoOn;
    }

    /** The object after its opening brace. */
    method ReadObject() returns (r: Step)
      requires current <= |document| && nodes != []
      modifies `current, `nodes, `errors
      ensures old(current) <= current <= |document| && Returned(r, old(nodes), nodes, old(errors), errors)
      ensures Agrees(ParseMembers(document, old(current), old(Room()), [], "", env), r, Top(nodes), current)
      decreases |document| - current, 3
    {
      hide ParseMembers;
      SetCurrentValue(Obj([]));
      var next, name := GoOn, "";
      while next.GoOn?
        invariant old(current) <= current <= |document| && Left(next, old(nodes), nodes, old(errors), errors)
        invariant var o := ParseMembers(document, old(current), old(Room()), [], "", env);
                  match next
                  case Return(step) => Agrees(o, step, Top(nodes), current)
                  case GoOn => Top(nodes).Obj? && o == ParseMembers(document, current, Room(), Top(nodes).members, name, env)
        decreases next.GoOn?, |document| - current
      {
        next, name := ReadEntry(name);
      }
      return next.step;
    }

    // -------------------------------------------------------------- documents

    /** The whole document. What the variable for the value held before does not matter. */
    method Parse(doc: string, root0: Value) returns (r: Step, root: Value)
      modifies this
      ensures document == doc && begin <= current <= |document|
      ensures r.Done? ==> nodes == [] && (r.ok <==> errors == [])
      ensures match ParseDocument(doc, env)
              case Good(v, _) => r == Done(true) && root == v
              case Bad => r == Done(false)
              case Throws(x) => r == Thrown(x)
    {
      hide ParseValue, ValueToken;
      document, begin, current := doc, 0, 0;
      errors, nodes := [], [root0];
      SkipBom(env.f.skipBom);
      r := ReadValue();
      root := nodes[0];
      if r.Thrown? { return; }
      nodes := Below(nodes);
      ghost var at := current;
      var token := SkipCommentTokens();
      r := CheckDocument(r.ok, root, token);
    }

    /** What is required of the document as a whole. */
    method CheckDocument(ok: bool, root: Value, token: Token) returns (r: Step)
      requires ok <==> errors == []
      modifies `errors
      ensures r.Done? && (r.ok <==> errors == [])
      ensures r.ok <==> ok && (env.f.failIfExtra ==> token.kind == EndOfStream) && (env.f.strictRoot ==> root.Arr? || root.Obj?)
    {
      if env.f.failIfExtra && token.kind != EndOfStream {
        var failed := AddError(ExtraText, token, 0);
        return Done(false);
      }
      if env.f.strictRoot {
        if !root.Arr? && !root.Obj? {
          var failed := AddError(ContainerExpected, Token(ErrorToken, 0, |document|), 0);
          return Done(false);
        }
      }
      return Done(ok);
    }
  }

  /** A method has come to an outcome: its result, and for a value the top of the stack and the cursor. */
  predicate Agrees(o: Outcome, r: Step, v: Value, at: nat) {
    match o
    case Good(w, e) => r == Done(true) && v == w && at == e
    case Bad => r == Done(false)
    case Throws(x) => r == Thrown(x)
  }

  /** A member's name, or the end of the object with or without success. */
  datatype Name = Is(name: string) | Ends(ok: bool)

  /** How a round of a loop ends: with the method's result, or with another round. */
  datatype Next = Return(step: Step) | GoOn

  /** Another round leaves the stack below the top and the errors as they were. */
  predicate Left(next: Next, nodes0: seq<Value>, nodes: seq<Value>, errors0: seq<ErrorInfo>, errors: seq<ErrorInfo>)
    requires nodes0 != []
  {
    match next
    case Return(step) => Returned(step, nodes0, nodes, errors0, errors)
    case GoOn => Returned(Done(true), nodes0, nodes, errors0, errors)
  }

  function Top(nodes: seq<Value>): Value
    requires nodes != []
  {
    nodes[|nodes| - 1]
  }

  function Below(nodes: seq<Value>): seq<Value>
    requires nodes != []
  {
    nodes[..|nodes| - 1]
  }

  /** Unless there was an exception, the stack below the top is as it was, and there are new errors
      exactly on failure. */
  predicate Returned(r: Step, nodes0: seq<Value>, nodes: seq<Value>, errors0: seq<ErrorInfo>, errors: seq<ErrorInfo>)
    requires nodes0 != []
  {
    && nodes != []
    && (r.Done? ==>
          && |nodes| == |nodes0| && Below(nodes) == Below(nodes0)
          && (if r.ok then errors == errors0 else errors0 < errors))
  }

  lemma SliceOn(s: string, a: nat, b: nat, k: nat)
    requires a + k <= b <= |s|
    ensures s[a..b][k..] == s[a + k..b]
  {}

  lemma DigitsFrom(doc: string, p: nat)
    requires p <= |doc|
    ensures if IsNum(CharAt(doc, p)) then p < |doc| && DigitsEnd(doc, p) == DigitsEnd(doc, p + 1) else DigitsEnd(doc, p) == p
  {}

  lemma CommentKinds(doc: string, p: nat)
    requires p <= |doc|
    ensures CommentScan(doc, p).kind in {CommentToken, ErrorToken}
  {}

  lemma ScalarBounds(doc: string, t: Token, env: Env)
    requires t.start <= t.end <= |doc| && (t.kind == StringToken ==> t.start + 2 <= t.end) && (t.kind != EndOfStream ==> t.start < t.end)
    ensures var o := ParseScalar(doc, t, env); o.Good? ==> t.start <= o.end <= t.end
  {}

  /** A bracket after white space. */
  lemma BracketThere(doc: string, p: nat, f: Features)
    requires p <= |doc| && CharAt(doc, SpaceEnd(doc, p)) == ']'
    ensures var q := SpaceEnd(doc, p); Lex(doc, q, f) == Token(ArrayEnd, q, q + 1)
  {}

  // ---------------------------------------------------------------- decoding step by step

  /** The value of the first `k` digits. */
  function HexValue(t: string, k: nat): (v: int)
    requires k <= |t|
  {
    if k == 0 then 0 else HexValue(t, k - 1) * 16 + Unhex(t[k - 1])
  }

  lemma FourDigits(t: string)
    requires |t| >= 4 && forall i | 0 <= i < 4 :: Unhex(t[i]) >= 0
    ensures Hex4(t) == Some(HexValue(t, 4))
  {
    hide Unhex;
    assert HexValue(t, 1) == Unhex(t[0]);
    assert HexValue(t, 2) == Unhex(t[0]) * 16 + Unhex(t[1]);
    assert HexValue(t, 3) == (Unhex(t[0]) * 16 + Unhex(t[1])) * 16 + Unhex(t[2]);
  }

  lemma PairPoint(t: string, high: nat)
    requires Hex4(t) == Some(high) && 0xD800 <= high <= 0xDBFF
    ensures DecodePoint(t) ==
            if |t| < 10 || t[4] != '\\' || t[5] != 'u' || Hex4(t[6..]).None? then None
            else Some(Point(PairValue(high, Hex4(t[6..]).value), 10))
  {
    hide Hex4;
  }

  lemma AfterNothing(r: Option<string>)
    ensures After("", r) == r
  {
    if r.Some? { assert "" + r.value == r.value; }
  }

  lemma AfterTwice(a: string, b: string, r: Option<string>)
    ensures After(a, After(b, r)) == After(a + b, r)
  {
    if r.Some? { assert a + b + r.value == a + (b + r.value); }
  }

  /** What the next character of a string means. */
  lemma DecodedStep(t: string)
    requires t != ""
    ensures t[0] == '"' ==> Decoded(t) == Some("")
    ensures t[0] != '"' && t[0] != '\\' ==> Decoded(t) == After([t[0]], Decoded(t[1..]))
    ensures t[0] == '\\' && |t| == 1 ==> Decoded(t) == None
    ensures t[0] == '\\' && |t| > 1 && t[1] == 'u' ==>
              Decoded(t) == var p := DecodePoint(t[2..]);
              if p.None? then None else After(ToUtf8(p.value.cp), Decoded(t[2 + p.value.len..]))
    ensures t[0] == '\\' && |t| > 1 && t[1] != 'u' ==>
              Decoded(t) == if Unescape(t[1]).None? then None else After([Unescape(t[1]).value], Decoded(t[2..]))
  {
    hide DecodePoint, Unescape, ToUtf8;
  }
}
