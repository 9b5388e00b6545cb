/** How field names are recognised while they are read, and what a matched name leaves in the
    parser. The matcher compares one byte at a time against five literals; it is shown to do what
    comparing the whole lower-cased name would do. */
module HttpNames {
  import opened HttpTypes
  import opened HttpSwitch
  import opened HttpInvariant

  /** The name in lower case, `Token` being the tokens table. */
  function Folded(name: string): (f: string)
    ensures |f| == |name|
  {
    if name == "" then "" else Folded(name[..|name| - 1]) + [Token(name[|name| - 1])]
  }

  predicate IsToken(name: string) { name != "" && forall c | c in name :: Token(c) != '\0' }

  predicate Starts(f: string, literal: string) { |f| <= |literal| && f == literal[..|f|] }

  /** The parser after the bytes of a field name, from the start of a header line. */
  function NameRead(p: Parser, name: string): Parser
    requires IsToken(name)
    decreases |name|
  {
    var last := name[|name| - 1];
    if |name| == 1 then OnFieldStart(p, last).p
    else
      assert forall c | c in name[..|name| - 1] :: c in name;
      FieldByte(NameRead(p, name[..|name| - 1]), last, Token(last))
  }

  /** `f` is the beginning of no name that matters. */
  predicate Unremarkable(f: string) {
    !Starts(f, CONNECTION) && !Starts(f, PROXY_CONNECTION) && !Starts(f, CONTENT_LENGTH)
    && !Starts(f, TRANSFER_ENCODING) && !Starts(f, UPGRADE)
  }

  /** What the header state says about the lower-cased bytes read so far. */
  predicate Tracked(f: string, h: HeaderState, i: nat) {
    match h
    case General => Unremarkable(f)
    case HC => f == "c" && i == 0
    case HCO => f == "co" && i == 1
    case HCON => f == "con" && i == 2
    case MatchingConnection => 3 <= i < |CONNECTION| - 1 && f == CONNECTION[..i + 1]
    case MatchingProxyConnection => i < |PROXY_CONNECTION| - 1 && f == PROXY_CONNECTION[..i + 1]
    case MatchingContentLength => 3 <= i < |CONTENT_LENGTH| - 1 && f == CONTENT_LENGTH[..i + 1]
    case MatchingTransferEncoding => i < |TRANSFER_ENCODING| - 1 && f == TRANSFER_ENCODING[..i + 1]
    case MatchingUpgrade => i < |UPGRADE| - 1 && f == UPGRADE[..i + 1]
    case Connection => f == CONNECTION || f == PROXY_CONNECTION
    case ContentLength => f == CONTENT_LENGTH
    case TransferEncoding => f == TRANSFER_ENCODING
    case Upgrade => f == UPGRADE
    case _ => false
  }

  lemma StartsLonger(f: string, c: char, literal: string)
    ensures Starts(f + [c], literal) <==> Starts(f, literal) && |f| < |literal| && literal[|f|] == c
  {
    if Starts(f, literal) && |f| < |literal| && literal[|f|] == c {
      assert literal[..|f| + 1] == literal[..|f|] + [c];
    }
    if Starts(f + [c], literal) {
      assert literal[..|f| + 1][..|f|] == literal[..|f|];
      assert (f + [c])[..|f|] == f;
    }
  }

  /** One more byte for a name that is a proper beginning of `literal`. */
  lemma MatchTracks(p: Parser, literal: string, c: char, complete: HeaderState)
    requires p.index < |literal| - 1 < 31
    ensures var q := Match(p, literal, c, General, complete);
            var f := literal[..p.index + 1];
            if literal[p.index + 1] != c then q == p.(index := p.index + 1, headerState := General) && !Starts(f + [c], literal)
            else
              && f + [c] == literal[..p.index + 2]
              && q == p.(index := p.index + 1, headerState := if p.index + 2 == |literal| then complete else p.headerState)
  {
    StartsLonger(literal[..p.index + 1], c, literal);
  }

  /** A byte in which `f` and `literal` differ. */
  lemma Differs(f: string, literal: string, k: nat)
    requires k < |f| && k < |literal| && f[k] != literal[k]
    ensures !Starts(f, literal)
  {}

  /** The literals are told apart by their first byte, or by the fourth. */
  lemma OneLiteral(f: string, c: char, literal: string)
    requires 0 < |f| < |literal| && f == literal[..|f|] && literal[|f|] != c
    requires literal in {PROXY_CONNECTION, TRANSFER_ENCODING, UPGRADE} || (literal in {CONNECTION, CONTENT_LENGTH} && |f| > 3)
    ensures Unremarkable(f + [c])
  {
    var g := f + [c];
    assert g[0] == literal[0];
    StartsLonger(f, c, literal);
    if literal in {CONNECTION, CONTENT_LENGTH} { assert g[3] == literal[3]; }
    if literal != PROXY_CONNECTION { Differs(g, PROXY_CONNECTION, 0); }
    if literal != TRANSFER_ENCODING { Differs(g, TRANSFER_ENCODING, 0); }
    if literal != UPGRADE { Differs(g, UPGRADE, 0); }
    if literal == CONTENT_LENGTH { Differs(g, CONNECTION, 3); }
    else if literal != CONNECTION { Differs(g, CONNECTION, 0); }
    if literal == CONNECTION { Differs(g, CONTENT_LENGTH, 3); }
    else if literal != CONTENT_LENGTH { Differs(g, CONTENT_LENGTH, 0); }
  }

  lemma UnremarkableGrows(f: string, c: char)
    requires Unremarkable(f)
    ensures Unremarkable(f + [c])
  {
    StartsLonger(f, c, CONNECTION);
    StartsLonger(f, c, PROXY_CONNECTION);
    StartsLonger(f, c, CONTENT_LENGTH);
    StartsLonger(f, c, TRANSFER_ENCODING);
    StartsLonger(f, c, UPGRADE);
  }

  lemma LiteralGrows(f: string, c: char)
    requires f in {CONNECTION, PROXY_CONNECTION, CONTENT_LENGTH, TRANSFER_ENCODING, UPGRADE}
    ensures Unremarkable(f + [c])
  {
    var g := f + [c];
    assert g[0] == f[0] && g[3] == f[3];
    if f != PROXY_CONNECTION { Differs(g, PROXY_CONNECTION, 0); }
    if f != TRANSFER_ENCODING { Differs(g, TRANSFER_ENCODING, 0); }
    if f != UPGRADE { Differs(g, UPGRADE, 0); }
    if f == CONTENT_LENGTH { Differs(g, CONNECTION, 3); } else if f != CONNECTION { Differs(g, CONNECTION, 0); }
    if f == CONNECTION { Differs(g, CONTENT_LENGTH, 3); } else if f != CONTENT_LENGTH { Differs(g, CONTENT_LENGTH, 0); }
  }

  lemma ShortGrows(f: string, c: char)
    requires (f == "c" && c != 'o') || (f == "co" && c != 'n') || (f == "con" && c != 'n' && c != 't')
    ensures Unremarkable(f + [c])
  {
    var g := f + [c];
    Differs(g, CONNECTION, |f|);
    Differs(g, CONTENT_LENGTH, |f|);
    assert g[0] == 'c';
    Differs(g, PROXY_CONNECTION, 0);
    Differs(g, TRANSFER_ENCODING, 0);
    Differs(g, UPGRADE, 0);
  }

  /** One more byte of a name. */
  lemma ByteTracks(p: Parser, f: string, ch: char)
    requires Token(ch) != '\0' && f != "" && Tracked(f, p.headerState, p.index)
    ensures var q, c := FieldByte(p, ch, Token(ch)), Token(ch);
            && Tracked(f + [c], q.headerState, q.index)
            && (q.flags.transferEncoding <==> p.flags.transferEncoding || f + [c] == TRANSFER_ENCODING)
  {
    hide Token, Match, Starts, Unremarkable;
    var c := Token(ch);
    SpaceIsNoToken();
    match p.headerState
    case General => UnremarkableGrows(f, c); UnremarkableIsNot(f + [c]);
    case HC => ShortTracks(p, f, ch, c);
    case HCO => ShortTracks(p, f, ch, c);
    case HCON => ShortTracks(p, f, ch, c);
    case MatchingConnection => LiteralTracks(p, CONNECTION, c, Connection);
    case MatchingProxyConnection => LiteralTracks(p, PROXY_CONNECTION, c, Connection);
    case MatchingContentLength => LiteralTracks(p, CONTENT_LENGTH, c, ContentLength);
    case MatchingTransferEncoding => LiteralTracks(p, TRANSFER_ENCODING, c, TransferEncoding);
    case MatchingUpgrade => LiteralTracks(p, UPGRADE, c, Upgrade);
    case _ =>
      LiteralGrows(f, c);
      UnremarkableIsNot(f + [c]);
  }

  lemma SpaceIsNoToken()
    ensures Token(' ') == '\0'
  {}

  lemma UnremarkableIsNot(f: string)
    requires Unremarkable(f)
    ensures f !in {CONNECTION, PROXY_CONNECTION, CONTENT_LENGTH, TRANSFER_ENCODING, UPGRADE}
  {
    assert forall l: string :: l == l[..|l|];
  }

  lemma ShortTracks(p: Parser, f: string, ch: char, c: char)
    requires p.headerState in {HC, HCO, HCON} && Tracked(f, p.headerState, p.index)
    ensures var q := FieldByte(p, ch, c);
            Tracked(f + [c], q.headerState, q.index) && q.flags == p.flags && f + [c] != TRANSFER_ENCODING
  {
    hide Match, Starts, Unremarkable;
    assert |f + [c]| <= 4;
    if (f == "c" && c != 'o') || (f == "co" && c != 'n') || (f == "con" && c != 'n' && c != 't') {
      ShortGrows(f, c);
    } else if f == "con" {
      assert CONNECTION[..4] == "conn" && CONTENT_LENGTH[..4] == "cont";
    }
  }

  lemma LiteralTracks(p: Parser, literal: string, c: char, complete: HeaderState)
    requires p.index < |literal| - 1 && Tracked(literal[..p.index + 1], p.headerState, p.index)
    requires (literal, complete, p.headerState) in {
               (CONNECTION, Connection, MatchingConnection), (PROXY_CONNECTION, Connection, MatchingProxyConnection),
               (CONTENT_LENGTH, ContentLength, MatchingContentLength),
               (TRANSFER_ENCODING, TransferEncoding, MatchingTransferEncoding), (UPGRADE, Upgrade, MatchingUpgrade)}
    ensures var q, f := Match(p, literal, c, General, complete), literal[..p.index + 1] + [c];
            && Tracked(f, q.headerState, q.index) && q.flags == p.flags
            && (q.headerState.TransferEncoding? <==> f == TRANSFER_ENCODING)
  {
    hide Starts, Unremarkable;
    MatchTracks(p, literal, c, complete);
    var f := literal[..p.index + 1];
    if literal[p.index + 1] != c {
      OneLiteral(f, c, literal);
      UnremarkableIsNot(f + [c]);
    } else {
      assert literal[..|literal|] == literal;
      assert f[0] == literal[0];
    }
  }

  lemma FirstByteTracks(p: Parser, ch: char)
    requires Token(ch) != '\0' && ch != CR && ch != LF
    ensures var q := OnFieldStart(p, ch).p;
            && Tracked([Token(ch)], q.headerState, q.index) && NameFrame(p, q) && q.flags == p.flags
  {
    hide Token;
    var f := [Token(ch)];
    assert CONNECTION[..1] == "c" && CONTENT_LENGTH[..1] == "c" && PROXY_CONNECTION[..1] == "p";
    assert TRANSFER_ENCODING[..1] == "t" && UPGRADE[..1] == "u";
    if f[0] != 'c' { Differs(f, CONNECTION, 0); Differs(f, CONTENT_LENGTH, 0); }
    if f[0] != 'p' { Differs(f, PROXY_CONNECTION, 0); }
    if f[0] != 't' { Differs(f, TRANSFER_ENCODING, 0); }
    if f[0] != 'u' { Differs(f, UPGRADE, 0); }
  }

  /** The transfer-encoding bit of `extra_flags`: set as soon as the name begins with the literal. */
  predicate SetsTransferEncoding(f: string) {
    |f| >= |TRANSFER_ENCODING| && f[..|TRANSFER_ENCODING|] == TRANSFER_ENCODING
  }

  lemma SetsByteByByte(f: string, c: char)
    ensures SetsTransferEncoding(f + [c]) <==> SetsTransferEncoding(f) || f + [c] == TRANSFER_ENCODING
  {
    var n := |TRANSFER_ENCODING|;
    if |f| >= n {
      assert (f + [c])[..n] == f[..n];
    } else if |f| + 1 == n {
      assert (f + [c])[..n] == f + [c];
    }
  }

  /** All that reading a name changes. */
  predicate NameFrame(p: Parser, q: Parser) {
    && q == p.(state := HeaderField, index := q.index, headerState := q.headerState, flags := q.flags)
    && q.flags == p.flags.(transferEncoding := q.flags.transferEncoding)
  }

  lemma FieldByteFrame(p: Parser, q: Parser, ch: char, c: char)
    requires NameFrame(p, q)
    ensures NameFrame(p, FieldByte(q, ch, c))
  {
    hide FieldByte;
  }

  /** Reading a name compares it, whatever its length, with the names that matter. */
  lemma {:induction false} NameTracked(p: Parser, name: string)
    requires IsToken(name)
    ensures var q := NameRead(p, name);
            && NameFrame(p, q) && Tracked(Folded(name), q.headerState, q.index)
            && (q.flags.transferEncoding <==> p.flags.transferEncoding || SetsTransferEncoding(Folded(name)))
    decreases |name|
  {
    hide Token, FieldByte, OnFieldStart, Tracked, SetsTransferEncoding, NameFrame;
    var k := |name| - 1;
    var init, last := name[..k], name[k];
    assert last in name && last != CR && last != LF by { LineEndsAreNoTokens(); }
    SetsByteByByte(Folded(init), Token(last));
    if k == 0 {
      assert Folded(name) == [Token(last)] by { assert init == ""; }
      ShortSetsNothing(Folded(name));
      FirstByteTracks(p, last);
    } else {
      assert forall c | c in init :: c in name;
      NameTracked(p, init);
      ByteTracks(NameRead(p, init), Folded(init), last);
      FieldByteFrame(p, NameRead(p, init), last, Token(last));
    }
  }

  lemma ShortSetsNothing(f: string)
    requires |f| == 1
    ensures !SetsTransferEncoding(f)
  {}

  lemma LineEndsAreNoTokens()
    ensures Token(CR) == '\0' && Token(LF) == '\0'
  {}

  lemma TrackedMeans(f: string, h: HeaderState, i: nat)
    requires Tracked(f, h, i)
    ensures h.Connection? <==> f == CONNECTION || f == PROXY_CONNECTION
    ensures h.ContentLength? <==> f == CONTENT_LENGTH
    ensures h.TransferEncoding? <==> f == TRANSFER_ENCODING
    ensures h.Upgrade? <==> f == UPGRADE
  {
    hide Unremarkable;
    match h
    case General => UnremarkableIsNot(f);
    case MatchingConnection => assert f[0] == CONNECTION[0] && f[3] == CONNECTION[3];
    case MatchingProxyConnection => assert f[0] == PROXY_CONNECTION[0];
    case MatchingContentLength => assert f[0] == CONTENT_LENGTH[0] && f[3] == CONTENT_LENGTH[3];
    case MatchingTransferEncoding => assert f[0] == TRANSFER_ENCODING[0];
    case MatchingUpgrade => assert f[0] == UPGRADE[0];
    case _ =>
  }

  /** The classifier is string equality: when the name ends, the header state is that of a name that
      matters exactly when the lower-cased name is that name. */
  lemma NameClassified(p: Parser, name: string)
    requires IsToken(name)
    ensures var h, f := NameRead(p, name).headerState, Folded(name);
            && (h.Connection? <==> f == CONNECTION || f == PROXY_CONNECTION)
            && (h.ContentLength? <==> f == CONTENT_LENGTH)
            && (h.TransferEncoding? <==> f == TRANSFER_ENCODING)
            && (h.Upgrade? <==> f == UPGRADE)
  {
    hide Tracked, NameRead;
    NameTracked(p, name);
    TrackedMeans(Folded(name), NameRead(p, name).headerState, NameRead(p, name).index);
  }
}
