/** The value of a Connection header: which options in it count, and which bits they set. */
module HttpConnection {
  import opened HttpTypes
  import opened HttpSwitch

  // ---------------------------------------------------------------- the options

  /** The same letter, in either case; `l` is lower case. */
  predicate SameLetter(c: char, l: char) { c == l || ('A' <= c <= 'Z' && c as int + 32 == l as int) }

  predicate SameWord(w: string, literal: string) { |w| == |literal| && forall i | 0 <= i < |w| :: SameLetter(w[i], literal[i]) }

  function TrimEnd(s: string): string
    decreases |s|
  {
    if s != "" && s[|s| - 1] == ' ' then TrimEnd(s[..|s| - 1]) else s
  }

  /** A beginning of one of the options, but not all of it. */
  predicate Partial(e: string) {
    || (|e| < |KEEP_ALIVE| && SameWord(e, KEEP_ALIVE[..|e|])) || (|e| < |CLOSE| && SameWord(e, CLOSE[..|e|]))
    || (|e| < |UPGRADE| && SameWord(e, UPGRADE[..|e|]))
  }

  /** An element ends at a comma, but not if up to there it is the beginning of an option. */
  function ElementEnd(w: string, i: nat): (j: nat)
    requires i <= |w|
    ensures i <= j <= |w| && (j < |w| ==> w[j] == ',' && !Partial(w[..j]))
    decreases |w| - i
  {
    if i == |w| || (w[i] == ',' && !Partial(w[..i])) then i else ElementEnd(w, i + 1)
  }

  /** The characters with which a further element may begin. */
  predicate ElementStart(c: char) {
    IsAlphaNum(c) || c in {'!', '#', '$', '%', '&', '\'', '*', '+', '-', '.', '^', '`', '|', '~', '@', '\\'}
  }

  /** The options of a value that count, in the order of the text. The first element may begin with anything;
      the first of the others that begins with what it must not ends the list. */
  function Options(w: string): seq<string>
    requires w != ""
    decreases |w|, 0
  {
    var i := ElementEnd(w, 1);
    [TrimEnd(w[..i])] + if i == |w| then [] else MoreOptions(w[i + 1..])
  }

  /** After a comma: spaces, and the next element. */
  function MoreOptions(s: string): seq<string>
    decreases |s|, 1
  {
    if s == "" then [] else if s[0] == ' ' then MoreOptions(s[1..]) else if ElementStart(s[0]) then Options(s) else []
  }

  predicate Has(os: seq<string>, literal: string) { exists o <- os :: SameWord(o, literal) }

  predicate Lists(v: string, literal: string) { v != "" && Has(Options(v), literal) }

  /** A value without commas is one option. */
  lemma OneOption(v: string)
    requires v != "" && ',' !in v
    ensures Options(v) == [TrimEnd(v)]
  {
    NoEnd(v, 1);
    assert v[..|v|] == v;
  }

  lemma {:induction false} NoEnd(v: string, i: nat)
    requires 1 <= i <= |v| && ',' !in v
    ensures ElementEnd(v, i) == |v|
    decreases |v| - i
  {
    if i < |v| {
      assert v[i] in v;
      NoEnd(v, i + 1);
    }
  }

  // ---------------------------------------------------------------- the bits

  /** The bits that some options set. */
  function Added(f: Flags, os: seq<string>): Flags {
    f.(keepAlive := f.keepAlive || Has(os, KEEP_ALIVE), close := f.close || Has(os, CLOSE),
       connUpgrade := f.connUpgrade || Has(os, UPGRADE))
  }

  lemma AddedNone(f: Flags)
    ensures Added(f, []) == f
  {}

  lemma AddedThen(f: Flags, o: string, os: seq<string>)
    ensures Added(Added(f, [o]), os) == Added(f, [o] + os)
  {
    HasThen(o, os, KEEP_ALIVE);
    HasThen(o, os, CLOSE);
    HasThen(o, os, UPGRADE);
  }

  lemma HasThen(o: string, os: seq<string>, literal: string)
    ensures Has([o] + os, literal) <==> Has([o], literal) || Has(os, literal)
    ensures Has([o], literal) <==> SameWord(o, literal)
  {
    hide SameWord;
    if Has([o] + os, literal) {
      var x :| x in [o] + os && SameWord(x, literal);
      assert x == o || x in os;
    }
    if SameWord(o, literal) { assert o in [o] + os && o in [o]; }
    if Has(os, literal) { var x :| x in os && SameWord(x, literal); assert x in [o] + os; }
  }

  // ---------------------------------------------------------------- one element

  /** The element so far can still be the option: it is a beginning of it, or all of it and spaces. */
  predicate Viable(e: string, literal: string) {
    && (forall i | 0 <= i < |e| && i < |literal| :: SameLetter(e[i], literal[i]))
    && (forall i | |literal| <= i < |e| :: e[i] == ' ')
  }

  lemma {:induction false} ViableTrims(e: string, literal: string)
    requires literal in {KEEP_ALIVE, CLOSE, UPGRADE}
    ensures SameWord(TrimEnd(e), literal) <==> Viable(e, literal) && |e| >= |literal|
    decreases |e|
  {
    if e != "" && e[|e| - 1] == ' ' {
      var d := e[..|e| - 1];
      ViableTrims(d, literal);
      if |e| <= |literal| {
        assert !SameLetter(' ', literal[|e| - 1]);
        TrimShorter(d);
      } else {
        assert Viable(e, literal) <==> Viable(d, literal) by { ViableSpace(d, literal); assert e == d + [' ']; }
      }
    }
  }

  lemma TrimShorter(e: string)
    ensures |TrimEnd(e)| <= |e|
    decreases |e|
  {}

  lemma ViableSpace(d: string, literal: string)
    requires |d| >= |literal|
    ensures Viable(d + [' '], literal) <==> Viable(d, literal)
  {
    assert forall i | 0 <= i < |d| :: (d + [' '])[i] == d[i];
    if Viable(d + [' '], literal) {
      forall i | 0 <= i < |d| && i < |literal|
        ensures SameLetter(d[i], literal[i])
      {
        assert SameLetter((d + [' '])[i], literal[i]);
      }
    }
  }

  lemma ViableMore(e: string, c: char, literal: string)
    ensures Viable(e + [c], literal) <==> Viable(e, literal) && if |e| < |literal| then SameLetter(c, literal[|e|]) else c == ' '
  {
    var d := e + [c];
    assert forall i | 0 <= i < |e| :: d[i] == e[i];
    assert d[|e|] == c;
    if Viable(d, literal) {
      forall i | 0 <= i < |e| && i < |literal|
        ensures SameLetter(e[i], literal[i])
      {
        assert SameLetter(d[i], literal[i]);
      }
    }
  }

  /** What the matcher has come to after an element `e`. */
  predicate ElementRead(p: Parser, e: string) {
    if Viable(e, KEEP_ALIVE) then
      if |e| < |KEEP_ALIVE| then p.headerState.ConnMatchingKeepAlive? && p.index == |e| - 1 else p.headerState.ConnKeepAlive?
    else if Viable(e, CLOSE) then
      if |e| < |CLOSE| then p.headerState.ConnMatchingClose? && p.index == |e| - 1 else p.headerState.ConnClose?
    else if Viable(e, UPGRADE) then
      if |e| < |UPGRADE| then p.headerState.ConnMatchingUpgrade? && p.index == |e| - 1 else p.headerState.ConnUpgrade?
    else p.headerState.ConnToken?
  }

  lemma LowerLetter(c: char, l: char)
    requires IsHeaderChar(c) && c != CR && ('a' <= l <= 'z' || l == '-')
    ensures Lower(c) == l <==> SameLetter(c, l)
  {}

  /** At most one of the options can be meant, by the first letter. */
  lemma ViableOne(e: string)
    requires e != ""
    ensures !(Viable(e, KEEP_ALIVE) && Viable(e, CLOSE)) && !(Viable(e, KEEP_ALIVE) && Viable(e, UPGRADE))
    ensures !(Viable(e, CLOSE) && Viable(e, UPGRADE))
  {
    assert forall l :: Viable(e, l) && l != "" ==> SameLetter(e[0], l[0]);
  }

  lemma MatchOne(p: Parser, e: string, c: char, literal: string, complete: HeaderState)
    requires e != "" && Viable(e, literal) && |e| < |literal| <= 10 && p.index == |e| - 1 && literal in {KEEP_ALIVE, CLOSE, UPGRADE}
    requires IsHeaderChar(c) && c != CR
    ensures var q := Match(p, literal, Lower(c), ConnToken, complete);
            && q.flags == p.flags
            && if Viable(e + [c], literal) then
                 if |e| + 1 < |literal| then q.headerState == p.headerState && q.index == |e| else q.headerState == complete
               else q.headerState.ConnToken?
  {
    hide Lower, IsHeaderChar;
    ViableMore(e, c, literal);
    assert 'a' <= literal[|e|] <= 'z' || literal[|e|] == '-' by { LiteralLetters(literal, |e|); }
    LowerLetter(c, literal[|e|]);
    assert Inc(p.index) == |e| && At(literal, |e|) == literal[|e|];
  }

  lemma LiteralLetters(literal: string, i: nat)
    requires literal in {KEEP_ALIVE, CLOSE, UPGRADE} && i < |literal|
    ensures 'a' <= literal[i] <= 'z' || literal[i] == '-'
  {}

  lemma CommaIsComma()
    ensures Lower(',') == ',' && IsHeaderChar(',') && forall l | l in {KEEP_ALIVE, CLOSE, UPGRADE} :: ',' !in l
  {}

  /** One more byte of an element. */
  lemma ElementByte(p: Parser, e: string, c: char)
    requires e != "" && ElementRead(p, e) && IsHeaderChar(c) && c != CR && (c == ',' ==> Partial(e))
    ensures var q := ConnectionByte(p, c, Lower(c)); q.flags == p.flags && ElementRead(q, e + [c])
  {
    hide Viable, SameLetter, IsHeaderChar, Lower, Partial, Match;
    ViableOne(e);
    ViableMore(e, c, KEEP_ALIVE);
    ViableMore(e, c, CLOSE);
    ViableMore(e, c, UPGRADE);
    if c == ',' { PartialIs(e); }
    if Viable(e, KEEP_ALIVE) {
      if |e| < |KEEP_ALIVE| { MatchOne(p, e, c, KEEP_ALIVE, ConnKeepAlive); }
    } else if Viable(e, CLOSE) {
      if |e| < |CLOSE| { MatchOne(p, e, c, CLOSE, ConnClose); }
    } else if Viable(e, UPGRADE) {
      if |e| < |UPGRADE| { MatchOne(p, e, c, UPGRADE, ConnUpgrade); }
    }
  }

  lemma PartialIs(e: string)
    ensures Partial(e) <==>
            || (|e| < |KEEP_ALIVE| && Viable(e, KEEP_ALIVE)) || (|e| < |CLOSE| && Viable(e, CLOSE))
            || (|e| < |UPGRADE| && Viable(e, UPGRADE))
  {}

  // ---------------------------------------------------------------- the whole value

  predicate ValueChars(s: string) { forall c <- s :: IsHeaderChar(c) && c != CR && c != LF }

  /** The parser after further bytes of a value. */
  function Fold(p: Parser, s: string): Parser
    decreases |s|
  {
    if s == "" then p
    else match ValueByte(p, s[0])
      case ValueOk(q) => Fold(q, s[1..])
      case ValueBad(_) => p
  }

  /** Bits and all, when the next line shows that the value is over. */
  function Settled(p: Parser): Flags { Recorded(p.flags, p.headerState) }

  lemma ConnByte(p: Parser, c: char)
    requires ConnState(p.headerState) && IsHeaderChar(c)
    ensures ValueByte(p, c) == ValueOk(ConnectionByte(p, c, Lower(c)))
  {
    hide Lower, IsHeaderChar, ConnectionByte;
  }

  lemma ElementIsConn(p: Parser, e: string)
    requires ElementRead(p, e)
    ensures ConnState(p.headerState)
  {
    hide Viable;
  }

  /** An element that is over has its bit set if it is an option. */
  lemma ElementRecorded(p: Parser, e: string)
    requires e != "" && ElementRead(p, e)
    ensures Settled(p) == Added(p.flags, [TrimEnd(e)])
  {
    hide Viable, SameWord;
    ViableOne(e);
    ViableTrims(e, KEEP_ALIVE);
    ViableTrims(e, CLOSE);
    ViableTrims(e, UPGRADE);
    HasThen(TrimEnd(e), [], KEEP_ALIVE);
    HasThen(TrimEnd(e), [], CLOSE);
    HasThen(TrimEnd(e), [], UPGRADE);
  }

  lemma CommaByte(p: Parser, e: string)
    requires e != "" && ElementRead(p, e) && !Partial(e)
    ensures var q := ConnectionByte(p, ',', Lower(','));
            q == p.(flags := Added(p.flags, [TrimEnd(e)]), headerState := ConnTokenStart, index := 0)
  {
    hide Viable, Added, Partial;
    PartialIs(e);
    ElementRecorded(p, e);
    CommaIsComma();
  }

  lemma GeneralStays(p: Parser, s: string)
    requires p.headerState.General? && ValueChars(s)
    ensures Settled(Fold(p, s)) == p.flags
    decreases |s|
  {
    hide IsHeaderChar, Lower;
    if s != "" {
      assert s[0] in s && forall c <- s[1..] :: c in s;
      GeneralByte(p, s[0]);
      GeneralStays(p, s[1..]);
    }
  }

  lemma GeneralByte(p: Parser, c: char)
    requires p.headerState.General? && IsHeaderChar(c)
    ensures ValueByte(p, c) == ValueOk(p)
  {
    hide Lower, IsHeaderChar;
  }

  /** The first character of an element after a comma. */
  lemma StartByte(p: Parser, c: char)
    requires p.headerState.ConnTokenStart? && p.index == 0 && IsHeaderChar(c) && c != CR && c != LF
    ensures var q := ConnectionByte(p, c, Lower(c));
            if c == ' ' then q == p
            else if ElementStart(c) then q.flags == p.flags && ElementRead(q, [c])
            else q == p.(headerState := General)
  {
    FirstLetters(c);
    ElementStarts(c);
  }

  lemma FirstLetters(c: char)
    requires IsHeaderChar(c) && c != CR && c != LF
    ensures Viable([c], KEEP_ALIVE) <==> Lower(c) == 'k'
    ensures Viable([c], CLOSE) <==> Lower(c) == 'c'
    ensures Viable([c], UPGRADE) <==> Lower(c) == 'u'
  {
    LowerLetter(c, 'k');
    LowerLetter(c, 'c');
    LowerLetter(c, 'u');
    assert Viable([c], KEEP_ALIVE) <==> SameLetter([c][0], KEEP_ALIVE[0]);
    assert Viable([c], CLOSE) <==> SameLetter([c][0], CLOSE[0]);
    assert Viable([c], UPGRADE) <==> SameLetter([c][0], UPGRADE[0]);
  }

  lemma ElementStarts(c: char)
    requires IsHeaderChar(c) && c != CR && c != LF
    ensures ElementStart(c) <==> Token(Lower(c)) != '\0'
    ensures Lower(c) == ' ' <==> c == ' '
    ensures Lower(c) != '\t'
  {}

  lemma {:induction false} ElementsRun(p: Parser, w: string, i: nat)
    requires 1 <= i <= |w| && ValueChars(w) && ElementRead(p, w[..i]) && ElementEnd(w, i) == ElementEnd(w, 1)
    ensures Settled(Fold(p, w[i..])) == Added(p.flags, Options(w))
    decreases |w| - i, 1
  {
    hide ValueByte, ConnectionByte, ElementRead, Added, Partial, Settled, IsHeaderChar, TrimEnd;
    if i == |w| {
      assert w[..i] == w && w[i..] == "";
      assert Options(w) == [TrimEnd(w)] + [] == [TrimEnd(w)];
      ElementRecorded(p, w);
    } else {
      var c := w[i];
      assert c in w && w[i..][0] == c && w[i..][1..] == w[i + 1..];
      ElementIsConn(p, w[..i]);
      ConnByte(p, c);
      var q := ConnectionByte(p, c, Lower(c));
      if c == ',' && !Partial(w[..i]) {
        CommaByte(p, w[..i]);
        assert forall x <- w[i + 1..] :: x in w;
        StartRun(q, w[i + 1..]);
        AddedThen(p.flags, TrimEnd(w[..i]), MoreOptions(w[i + 1..]));
      } else {
        ElementByte(p, w[..i], c);
        assert w[..i] + [c] == w[..i + 1];
        ElementsRun(q, w, i + 1);
        assert q.flags == p.flags;
      }
    }
  }

  lemma {:induction false} StartRun(p: Parser, s: string)
    requires p.headerState.ConnTokenStart? && p.index == 0 && ValueChars(s)
    ensures Settled(Fold(p, s)) == Added(p.flags, MoreOptions(s))
    decreases |s|, 2
  {
    hide ValueByte, ConnectionByte, ElementRead, Added, IsHeaderChar, ElementStart, Options;
    if s == "" {
      AddedNone(p.flags);
    } else {
      var c := s[0];
      assert c in s && forall x <- s[1..] :: x in s;
      ConnByte(p, c);
      StartByte(p, c);
      var q := ConnectionByte(p, c, Lower(c));
      if c == ' ' {
        StartRun(p, s[1..]);
      } else if ElementStart(c) {
        assert s[..1] == [c];
        ElementsRun(q, s, 1);
      } else {
        GeneralStays(q, s[1..]);
        AddedNone(p.flags);
      }
    }
  }

  /** A Connection value sets exactly the bits of the options that count. */
  lemma ConnectionBits(p: Parser, v: string)
    requires p.headerState.Connection? && ValueChars(v) && v != "" && v[0] != ' ' && v[0] != '\t'
    ensures Settled(Fold(OnValueStart(p, v[0]).p, v[1..])) == Added(p.flags, Options(v))
  {
    hide ValueByte, Added, Options, Settled, Fold;
    var q := OnValueStart(p, v[0]).p;
    assert v[0] in v && v[..1] == [v[0]];
    FirstLetters(v[0]);
    assert q.flags == p.flags && ElementRead(q, v[..1]);
    ElementsRun(q, v, 1);
  }
}
