/** Whole header lines: what reading a printed header does to the parser, for headers that do not
    frame the body and for Content-Length. */
module HttpHeaders {
  import opened HttpTypes
  import opened Decimals
  import opened HttpSwitch
  import opened HttpRun
  import opened HttpInvariant
  import opened HttpScan
  import opened HttpReads
  import opened HttpNames
  import opened HttpLines
  import opened HttpConnection

  datatype Header = Header(name: string, value: string)

  /** A printed header line, section 3.2 of RFC 7230. */
  function Line(h: Header): string { h.name + ": " + h.value + "\r\n" }

  /** A field value as printed: allowed bytes, not starting with white space. */
  predicate ValueText(v: string) {
    (forall c | c in v :: IsHeaderChar(c) && c != CR && c != LF) && (v != "" ==> v[0] != ' ' && v[0] != '\t')
  }

  /** A header that does not frame the body. The transfer-encoding bit is set by every name that merely begins
      with the literal. */
  predicate Ordinary(h: Header) {
    && IsToken(h.name) && ValueText(h.value)
    && Folded(h.name) != CONTENT_LENGTH && !SetsTransferEncoding(Folded(h.name))
  }

  predicate IsConnection(h: Header) { Folded(h.name) == CONNECTION || Folded(h.name) == PROXY_CONNECTION }

  /** The header asks for an option of the connection. */
  predicate Asks(h: Header, option: string) { IsConnection(h) && Lists(h.value, option) }

  /** The header names another protocol. */
  predicate Upgrades(h: Header) { Folded(h.name) == UPGRADE && h.value != "" }

  /** The bits after an ordinary header. */
  function LineFlags(f: Flags, h: Header): Flags {
    f.(keepAlive := f.keepAlive || Asks(h, KEEP_ALIVE), close := f.close || Asks(h, CLOSE),
       connUpgrade := f.connUpgrade || Asks(h, UPGRADE), upgrade := f.upgrade || Upgrades(h))
  }

  // ---------------------------------------------------------------- values that are not numbers

  predicate Gentle(h: HeaderState) { h.General? || ConnState(h) }

  /** The parser after the bytes of such a value. */
  function ValueRead(p: Parser, v: string): Parser
    requires v != ""
  {
    Fold(OnValueStart(p, v[0]).p, v[1..]).(state := HeaderValue, nread := p.nread + |v|)
  }

  lemma MatchGentle(p: Parser, literal: string, c: char, complete: HeaderState)
    requires Gentle(p.headerState) && ConnState(complete)
    ensures var q := Match(p, literal, c, ConnToken, complete);
            Gentle(q.headerState) && q.contentLength == p.contentLength
  {
    hide At;
  }

  lemma ListGentle(p: Parser, ch: char)
    requires Gentle(p.headerState)
    ensures Gentle(TokenStart(p, ch, ConnToken).headerState) && TokenStart(p, ch, ConnToken).contentLength == p.contentLength
    ensures Gentle(AfterConnToken(p, ch).headerState) && AfterConnToken(p, ch).contentLength == p.contentLength
  {
    hide Token, Recorded;
  }

  lemma GentleByte(p: Parser, ch: char)
    requires Gentle(p.headerState) && IsHeaderChar(ch)
    ensures var r := ValueByte(p, ch);
            r.ValueOk? && Gentle(r.p.headerState) && r.p.contentLength == p.contentLength
  {
    hide Token, Lower, IsHeaderChar, Match, TokenStart, AfterConnToken;
    MatchGentle(p, KEEP_ALIVE, Lower(ch), ConnKeepAlive);
    MatchGentle(p, CLOSE, Lower(ch), ConnClose);
    MatchGentle(p, UPGRADE, Lower(ch), ConnUpgrade);
    ListGentle(p, ch);
    ListGentle(p, Lower(ch));
  }

  /** The bytes of a value do not depend on the budget. */
  lemma GentleRebased(p: Parser, n: nat, ch: char)
    requires Gentle(p.headerState) && IsHeaderChar(ch)
    ensures ValueByte(p.(nread := n), ch) == ValueOk(ValueByte(p, ch).p.(nread := n)) && ValueByte(p, ch).ValueOk?
  {
    hide ValueByte, Gentle, IsHeaderChar;
    GentleByte(p, ch);
    ValueByteRebased(p, n, p.upgrade, ch);
    ByteFrame(p, ch);
  }

  lemma {:induction false} FoldSnoc(p: Parser, s: string, c: char)
    requires Gentle(p.headerState) && ValueChars(s) && IsHeaderChar(c)
    ensures Gentle(Fold(p, s).headerState) && Fold(p, s + [c]) == ValueByte(Fold(p, s), c).p && ValueByte(Fold(p, s), c).ValueOk?
    ensures var q := Fold(p, s); q == p.(index := q.index, headerState := q.headerState, flags := q.flags)
    decreases |s|
  {
    hide ValueByte, Gentle, IsHeaderChar;
    if s == "" {
      GentleByte(p, c);
      assert [c][1..] == "" && s + [c] == [c];
    } else {
      assert s[0] in s && forall x <- s[1..] :: x in s;
      GentleByte(p, s[0]);
      ByteFrame(p, s[0]);
      assert (s + [c])[0] == s[0] && (s + [c])[1..] == s[1..] + [c];
      FoldSnoc(ValueByte(p, s[0]).p, s[1..], c);
    }
  }

  lemma GentleStart(p: Parser, ch: char)
    requires p.headerState !in {ContentLength, ContentLengthWs, TransferEncoding, TeTokenStart}
    ensures var o := OnValueStart(p, ch);
            && o.ctl.Next? && o.acts == [MarkAt(Value)] && Gentle(o.p.headerState)
            && o.p == p.(state := HeaderValue, index := 0, headerState := o.p.headerState,
                         flags := if p.headerState.Upgrade? then p.flags.(upgrade := true) else p.flags)
            && (!p.headerState.Connection? && !p.headerState.ConnTokenStart? ==> o.p.headerState.General?)
  {
    hide Lower;
  }

  lemma DiscardSwitch(p: Parser, ch: char)
    requires p.state.HeaderValueDiscardWs? && ch !in {' ', '\t', CR, LF}
    ensures Switch(p, ch) == OnValueStart(p, ch) && ParsingHeader(p.state)
  {
    hide OnValueStart;
  }

  lemma ValueInit(v: string)
    requires ValueText(v) && v != ""
    ensures var k := |v| - 1;
            && v == v[..k] + [v[k]] && IsHeaderChar(v[k]) && v[k] != CR && v[k] != LF
            && if k == 0 then v == [v[k]] && v[k] != ' ' && v[k] != '\t' else ValueText(v[..k]) && v[..k] != ""
  {
    var k := |v| - 1;
    assert v[k] in v;
    assert forall c | c in v[..k] :: c in v;
    if k > 0 { assert v[..k][0] == v[0]; }
  }

  /** What a value changes: matcher fields, bits, and the budget. */
  predicate ValueFrame(p: Parser, q: Parser, n: nat) {
    q == p.(state := HeaderValue, headerState := q.headerState, index := q.index, flags := q.flags, nread := p.nread + n)
  }

  lemma {:induction false} ReadsValue(m: Machine, v: string)
    requires m.p.state.HeaderValueDiscardWs? && m.mark.Unmarked? && ValueText(v) && v != "" && Affords(m.p, |v|)
    requires m.p.headerState !in {ContentLength, ContentLengthWs, TransferEncoding, TeTokenStart}
    ensures var q := ValueRead(m.p, v);
            Reads(m, v, Machine(q, Marked(Value, v), m.events)) && Gentle(q.headerState) && ValueFrame(m.p, q, |v|)
    decreases |v|
  {
    hide Switch, Reads, ValueText, OnValueStart, ValueByte, IsHeaderChar, Gentle, ParsingHeader, Fold;
    ValueInit(v);
    var k := |v| - 1;
    var init, last := v[..k], v[k];
    var q := ValueRead(m.p, v);
    if k == 0 {
      assert v[1..] == "";
      DiscardSwitch(Counted(m.p), last);
      CountedHeader(m.p);
      GentleStart(Counted(m.p), last);
      GentleStart(m.p, last);
      StartRebased(m.p, m.p.nread + 1, last);
      assert Fold(OnValueStart(m.p, last).p, "") == OnValueStart(m.p, last).p by { FoldNothing(OnValueStart(m.p, last).p); }
      MarkByte(m, last, q, Value);
    } else {
      ReadsValue(m, init);
      var p1 := ValueRead(m.p, init);
      var m1 := Machine(p1, Marked(Value, init), m.events);
      CountedHeader(p1);
      ValueSwitch(Counted(p1), last);
      GentleStart(m.p, v[0]);
      var g := OnValueStart(m.p, v[0]).p;
      TextChars(init);
      FoldSnoc(g, init[1..], last);
      assert v[1..] == init[1..] + [last];
      GentleRebased(Fold(g, init[1..]), p1.nread + 1, last);
      GentleByte(Fold(g, init[1..]), last);
      ByteFrame(Fold(g, init[1..]), last);
      PlainByte(m1, last, q);
      ReadsThen(m, init, m1, [last], Extended(m1.(p := q), last));
    }
  }

  lemma TextChars(v: string)
    requires ValueText(v) && v != ""
    ensures ValueChars(v[1..])
  {
    assert forall c <- v[1..] :: c in v;
  }

  lemma FoldNothing(p: Parser)
    ensures Fold(p, "") == p
  {}

  lemma StartRebased(p: Parser, n: nat, ch: char)
    requires p.headerState !in {ContentLength, ContentLengthWs, TransferEncoding, TeTokenStart}
    ensures OnValueStart(p.(nread := n), ch).p == OnValueStart(p, ch).p.(nread := n)
  {
    hide Lower;
  }

  lemma ByteFrame(p: Parser, ch: char)
    requires ValueByte(p, ch).ValueOk? && Gentle(p.headerState) && IsHeaderChar(ch)
    ensures var q := ValueByte(p, ch).p; q == p.(index := q.index, headerState := q.headerState, flags := q.flags)
  {
    hide ValueByte, IsHeaderChar, Gentle;
    GentleByte(p, ch);
  }

  lemma CountedHeader(p: Parser)
    ensures p.state.HeaderValueDiscardWs? || p.state.HeaderValue? || p.state.HeaderField? ==>
              ParsingHeader(p.state) && Counted(p) == p.(nread := p.nread + 1)
  {}

  // ---------------------------------------------------------------- Content-Length values

  /** The last value that a further digit may follow. */
  const LAST_DECIMAL := (0xFFFF_FFFF_FFFF_FFFF - 10) / 10

  /** The parser after the digits `v` of a Content-Length value. */
  function LengthRead(p: Parser, v: string): Parser
    requires Digits(v)
  {
    p.(state := HeaderValue, index := 0, headerState := ContentLengthNum,
       flags := p.flags.(contentLength := true), contentLength := Decimal(v), nread := p.nread + |v|)
  }

  lemma LengthStart(p: Parser, ch: char)
    requires p.state.HeaderValueDiscardWs? && p.headerState.ContentLength? && IsNum(ch) && !p.flags.contentLength
    ensures Switch(p, ch) ==
            Out(p.(state := HeaderValue, index := 0, headerState := ContentLengthNum,
                   flags := p.flags.(contentLength := true), contentLength := DigitValue(ch)), [MarkAt(Value)], Next)
  {
    hide Lower;
    DiscardSwitch(p, ch);
  }

  /** A further digit is accepted exactly when the value read so far is at most LAST_DECIMAL, and
      then it is accounted for exactly: there is no wrap-around. */
  lemma LengthByte(p: Parser, ch: char)
    requires p.headerState.ContentLengthNum? && IsNum(ch)
    ensures ValueByte(p, ch) ==
            if p.contentLength <= LAST_DECIMAL
            then ValueOk(p.(contentLength := p.contentLength * 10 + DigitValue(ch)))
            else ValueBad(INVALID_CONTENT_LENGTH)
  {}

  lemma {:induction false} ReadsLength(m: Machine, v: string)
    requires m.p.state.HeaderValueDiscardWs? && m.p.headerState.ContentLength? && !m.p.flags.contentLength
    requires m.mark.Unmarked? && Digits(v) && Affords(m.p, |v|) && Decimal(v) / 10 <= LAST_DECIMAL
    ensures Reads(m, v, Machine(LengthRead(m.p, v), Marked(Value, v), m.events))
    decreases |v|
  {
    hide Switch, Reads, Digits, ValueByte, ParsingHeader, Decimal, IsNum;
    DigitsInit(v);
    var k := |v| - 1;
    var init, last := v[..k], v[k];
    CountedHeader(m.p);
    if k == 0 {
      LengthStart(Counted(m.p), last);
      MarkByte(m, last, LengthRead(m.p, v), Value);
    } else {
      assert Decimal(init) <= LAST_DECIMAL && Decimal(init) / 10 <= LAST_DECIMAL;
      ReadsLength(m, init);
      var p1 := LengthRead(m.p, init);
      var m1 := Machine(p1, Marked(Value, init), m.events);
      CountedHeader(p1);
      DigitsAreValue(last);
      ValueSwitch(Counted(p1), last);
      LengthByte(Counted(p1), last);
      PlainByte(m1, last, LengthRead(m.p, v));
      ReadsThen(m, init, m1, [last], Extended(m1.(p := LengthRead(m.p, v)), last));
    }
  }

  lemma DigitsAreValue(c: char)
    requires IsNum(c)
    ensures c != CR && c != LF
  {}

  // ---------------------------------------------------------------- whole lines

  lemma ColonSwitch(p: Parser)
    requires p.state.HeaderField?
    ensures Switch(p, ':') == Out(p.(state := HeaderValueDiscardWs), [Flush(Field)], Next)
  {}

  lemma SpaceSwitch(p: Parser)
    requires p.state.HeaderValueDiscardWs?
    ensures Switch(p, ' ') == Out(p, [], Next)
  {}

  lemma LineEndSwitch(p: Parser)
    ensures p.state.HeaderAlmostDone? ==> Switch(p, LF) == Out(p.(state := HeaderValueLws), [], Next)
    ensures p.state.HeaderValueDiscardWs? ==> Switch(p, CR) == Out(p.(state := HeaderValueDiscardWsAlmostDone), [], Next)
    ensures p.state.HeaderValueDiscardWsAlmostDone? ==> Switch(p, LF) == Out(p.(state := HeaderValueDiscardLws), [], Next)
  {}

  /** All these states count towards the header budget. */
  lemma LineStatesCount(p: Parser)
    requires InLine(p.state)
    ensures ParsingHeader(p.state) && Counted(p) == p.(nread := p.nread + 1)
  {}

  /** The parser after a name and its colon. */
  function AfterColon(p: Parser, name: string): Parser
    requires IsToken(name)
  {
    NameRead(p, name).(state := HeaderValueDiscardWs, nread := p.nread + |name| + 1)
  }

  lemma ReadsColon(m: Machine, name: string)
    requires m.p.state.HeaderFieldStart? && m.mark.Unmarked? && IsToken(name) && Affords(m.p, |name| + 1)
    ensures Reads(m, name + ":", Machine(AfterColon(m.p, name), Unmarked, m.events + [Data(Field, name)]))
  {
    hide Switch, Reads, NameRead, ParsingHeader, SetsTransferEncoding, Tracked;
    NameTracked(m.p, name);
    ReadsFieldName(m, name);
    var p1 := NameCounted(m.p, name);
    var m1 := Machine(p1, Marked(Field, name), m.events);
    LineStatesCount(p1);
    ColonSwitch(Counted(p1));
    var p2 := p1.(state := HeaderValueDiscardWs, nread := p1.nread + 1);
    FlushByte(m1, ':', p2);
    ReadsThen(m, name, m1, ":", Machine(p2, Unmarked, m.events + [Data(Field, name)]));
  }

  /** The parser after `name: `. */
  function BeforeValue(p: Parser, name: string): Parser
    requires IsToken(name)
  {
    AfterColon(p, name).(nread := p.nread + |name| + 2)
  }

  lemma ReadsNameColon(m: Machine, name: string)
    requires m.p.state.HeaderFieldStart? && m.mark.Unmarked? && IsToken(name) && Affords(m.p, |name| + 2)
    ensures Reads(m, name + ": ", Machine(BeforeValue(m.p, name), Unmarked, m.events + [Data(Field, name)]))
  {
    hide Switch, Reads, NameRead, ParsingHeader;
    ReadsColon(m, name);
    var p1 := AfterColon(m.p, name);
    var m1 := Machine(p1, Unmarked, m.events + [Data(Field, name)]);
    LineStatesCount(p1);
    SpaceSwitch(Counted(p1));
    PlainByte(m1, ' ', BeforeValue(m.p, name));
    ReadsThen(m, name + ":", m1, " ", m1.(p := BeforeValue(m.p, name)));
    assert name + ":" + " " == name + ": ";
  }

  /** CR LF after a value. */
  lemma ReadsLineEnd(m: Machine)
    requires m.p.state.HeaderValue? && m.mark.Marked? && m.mark.kind == Value && Affords(m.p, 2)
    ensures Reads(m, "\r\n", Machine(m.p.(state := HeaderValueLws, nread := m.p.nread + 2), Unmarked,
                                     m.events + [Data(Value, m.mark.text)]))
  {
    hide Switch, Reads, ParsingHeader;
    LineStatesCount(m.p);
    ValueSwitchCr(Counted(m.p));
    var p1 := m.p.(state := HeaderAlmostDone, nread := m.p.nread + 1);
    var m1 := Machine(p1, Unmarked, m.events + [Data(Value, m.mark.text)]);
    FlushByte(m, CR, p1);
    LineStatesCount(p1);
    LineEndSwitch(Counted(p1));
    var p2 := p1.(state := HeaderValueLws, nread := p1.nread + 1);
    PlainByte(m1, LF, p2);
    ReadsThen(m, [CR], m1, [LF], m1.(p := p2));
    assert [CR] + [LF] == "\r\n";
  }

  /** CR LF in place of a value. */
  lemma ReadsEmptyValue(m: Machine)
    requires m.p.state.HeaderValueDiscardWs? && m.mark.Unmarked? && Affords(m.p, 2)
    ensures Reads(m, "\r\n", m.(p := m.p.(state := HeaderValueDiscardLws, nread := m.p.nread + 2)))
  {
    hide Switch, Reads, ParsingHeader;
    LineStatesCount(m.p);
    LineEndSwitch(Counted(m.p));
    var p1 := m.p.(state := HeaderValueDiscardWsAlmostDone, nread := m.p.nread + 1);
    PlainByte(m, CR, p1);
    var m1 := m.(p := p1);
    LineStatesCount(p1);
    LineEndSwitch(Counted(p1));
    var p2 := p1.(state := HeaderValueDiscardLws, nread := p1.nread + 1);
    PlainByte(m1, LF, p2);
    ReadsThen(m, [CR], m1, [LF], m.(p := p2));
    assert [CR] + [LF] == "\r\n";
  }

  function LineEvents(h: Header): seq<Event> { [Data(Field, h.name), Data(Value, h.value)] }

  /** What an ordinary header leaves. */
  predicate LineRead(m: Machine, h: Header, m': Machine) {
    && Ready(m')
    && Settle(m') == Machine(
         m.p.(headerState := Settle(m').p.headerState, index := Settle(m').p.index,
              flags := LineFlags(m.p.flags, h), nread := m.p.nread + |Line(h)|),
         Unmarked, m.events + LineEvents(h))
  }

  lemma ReadsEmptyHeader(m: Machine, h: Header) returns (m': Machine)
    requires m.p.state.HeaderFieldStart? && m.mark.Unmarked? && Ordinary(h) && h.value == "" && Affords(m.p, |Line(h)|)
    ensures Reads(m, Line(h), m') && LineRead(m, h, m')
  {
    hide Switch, Reads, NameRead, IsToken, SetsTransferEncoding, ValueText, Recorded;
    OrdinaryName(m.p, h);
    ReadsNameColon(m, h.name);
    var m1 := Machine(BeforeValue(m.p, h.name), Unmarked, m.events + [Data(Field, h.name)]);
    ReadsEmptyValue(m1);
    m' := m1.(p := m1.p.(state := HeaderValueDiscardLws, nread := m1.p.nread + 2));
    ReadsThen(m, h.name + ": ", m1, "\r\n", m');
    assert Line(h) == h.name + ": " + "\r\n";
    RecordedNothing(m'.p);
    assert m.events + [Data(Field, h.name)] + [Data(Value, h.value)] == m.events + LineEvents(h);
    assert LineFlags(m.p.flags, h) == m.p.flags;
  }

  /** The bits that are settled once the value is over. */
  lemma ValueBits(p: Parser, h: Header)
    requires Ordinary(h) && h.value != ""
    requires p.headerState.Connection? <==> IsConnection(h)
    requires p.headerState.Upgrade? <==> Folded(h.name) == UPGRADE
    requires p.headerState !in {ContentLength, ContentLengthWs, TransferEncoding, TeTokenStart, ConnTokenStart}
    ensures Settled(ValueRead(p, h.value)) == LineFlags(p.flags, h)
  {
    hide ValueText, IsToken, SetsTransferEncoding, OnValueStart, Fold, Options, Has, Recorded;
    var v := h.value;
    TextChars(v);
    GentleStart(p, v[0]);
    assert v[0] != ' ' && v[0] != '\t' && ValueChars(v) by { TextStarts(v); }
    if p.headerState.Connection? {
      ConnectionBits(p, v);
      assert CONNECTION != UPGRADE && PROXY_CONNECTION != UPGRADE;
    } else {
      GeneralStays(OnValueStart(p, v[0]).p, v[1..]);
    }
  }

  lemma TextStarts(v: string)
    requires ValueText(v) && v != ""
    ensures v[0] != ' ' && v[0] != '\t' && ValueChars(v)
  {}

  lemma ReadsHeader(m: Machine, h: Header) returns (m': Machine)
    requires m.p.state.HeaderFieldStart? && m.mark.Unmarked? && Ordinary(h) && Affords(m.p, |Line(h)|)
    ensures Reads(m, Line(h), m') && LineRead(m, h, m')
  {
    hide Switch, Reads, NameRead, IsToken, SetsTransferEncoding, ValueText, Recorded, ValueRead, Gentle;
    if h.value == "" {
      m' := ReadsEmptyHeader(m, h);
    } else {
      OrdinaryName(m.p, h);
      ReadsNameColon(m, h.name);
      var m1 := Machine(BeforeValue(m.p, h.name), Unmarked, m.events + [Data(Field, h.name)]);
      ReadsValue(m1, h.value);
      ValueBits(m1.p, h);
      var q := ValueRead(m1.p, h.value);
      var m2 := Machine(q, Marked(Value, h.value), m1.events);
      ReadsLineEnd(m2);
      m' := Machine(q.(state := HeaderValueLws, nread := q.nread + 2), Unmarked, m2.events + [Data(Value, h.value)]);
      ReadsThen(m, h.name + ": ", m1, h.value, m2);
      ReadsThen(m, h.name + ": " + h.value, m2, "\r\n", m');
      assert m'.events == m.events + LineEvents(h);
    }
  }

  /** No name leaves one of the states that only values have. */
  lemma NameIsNoValue(f: string, h: HeaderState, i: nat)
    requires Tracked(f, h, i)
    ensures h !in {ContentLengthWs, TeTokenStart, ConnTokenStart, ConnKeepAlive, ConnClose, ConnUpgrade, TeChunked}
  {
    hide Unremarkable;
  }

  lemma WholeLiteralSets()
    ensures SetsTransferEncoding(TRANSFER_ENCODING)
  {
    assert TRANSFER_ENCODING[..|TRANSFER_ENCODING|] == TRANSFER_ENCODING;
  }

  lemma OrdinaryName(p: Parser, h: Header)
    requires Ordinary(h)
    ensures var q := NameRead(p, h.name);
            && NameFrame(p, q) && q.flags == p.flags
            && (q.headerState.Connection? <==> IsConnection(h)) && (q.headerState.Upgrade? <==> Folded(h.name) == UPGRADE)
            && q.headerState !in {ContentLength, ContentLengthWs, TransferEncoding, TeTokenStart, ConnTokenStart,
                                  ConnKeepAlive, ConnClose, ConnUpgrade, TeChunked}
  {
    hide Tracked, NameRead, SetsTransferEncoding, ValueText;
    var q := NameRead(p, h.name);
    NameTracked(p, h.name);
    NameIsNoValue(Folded(h.name), q.headerState, q.index);
    TrackedMeans(Folded(h.name), q.headerState, q.index);
    WholeLiteralSets();
  }

  lemma RecordedNothing(p: Parser)
    requires p.headerState !in {ConnKeepAlive, ConnClose, ConnUpgrade, TeChunked}
    ensures Recorded(p.flags, p.headerState) == p.flags
  {}

  // ---------------------------------------------------------------- Content-Length lines

  predicate IsLength(h: Header) { Folded(h.name) == CONTENT_LENGTH }

  /** A Content-Length header for a body of `n` bytes. */
  predicate LengthHeader(h: Header, n: nat) {
    IsToken(h.name) && IsLength(h) && Digits(h.value) && Decimal(h.value) == n && n / 10 <= LAST_DECIMAL
  }

  /** What a Content-Length header leaves. */
  predicate LengthLineRead(m: Machine, h: Header, n: nat, m': Machine) {
    && Ready(m')
    && Settle(m') == Machine(
         m.p.(headerState := Settle(m').p.headerState, index := Settle(m').p.index,
              flags := m.p.flags.(contentLength := true), contentLength := n, nread := m.p.nread + |Line(h)|),
         Unmarked, m.events + LineEvents(h))
  }

  lemma LengthName(p: Parser, name: string)
    requires IsToken(name) && Folded(name) == CONTENT_LENGTH
    ensures var q := NameRead(p, name);
            NameFrame(p, q) && q.flags == p.flags && q.headerState.ContentLength?
  {
    hide Tracked, NameRead, IsToken;
    NameTracked(p, name);
    NameClassified(p, name);
    assert !SetsTransferEncoding(CONTENT_LENGTH);
  }

  lemma ReadsLengthHeader(m: Machine, h: Header, n: nat) returns (m': Machine)
    requires m.p.state.HeaderFieldStart? && m.mark.Unmarked? && LengthHeader(h, n) && Affords(m.p, |Line(h)|)
    requires !m.p.flags.contentLength
    ensures Reads(m, Line(h), m') && LengthLineRead(m, h, n, m')
  {
    hide Switch, Reads, NameRead, IsToken, Digits, Decimal;
    LengthName(m.p, h.name);
    ReadsNameColon(m, h.name);
    var m1 := Machine(BeforeValue(m.p, h.name), Unmarked, m.events + [Data(Field, h.name)]);
    ReadsLength(m1, h.value);
    var q := LengthRead(m1.p, h.value);
    var m2 := Machine(q, Marked(Value, h.value), m1.events);
    ReadsLineEnd(m2);
    m' := Machine(q.(state := HeaderValueLws, nread := q.nread + 2), Unmarked, m2.events + [Data(Value, h.value)]);
    ReadsThen(m, h.name + ": ", m1, h.value, m2);
    ReadsThen(m, h.name + ": " + h.value, m2, "\r\n", m');
    assert m.events + [Data(Field, h.name)] + [Data(Value, h.value)] == m.events + LineEvents(h);
  }

  // ---------------------------------------------------------------- Transfer-Encoding: chunked

  /** The coding name, in any case. */
  predicate IsChunked(v: string) { |v| == |CHUNKED| && forall i | 0 <= i < |v| :: Lower(v[i]) == CHUNKED[i] }

  predicate CodingHeader(h: Header) { IsToken(h.name) && Folded(h.name) == TRANSFER_ENCODING && IsChunked(h.value) }

  /** The parser after `k` bytes of the coding name. */
  function CodingRead(p: Parser, k: nat): Parser
    requires 1 <= k <= 7
  {
    p.(state := HeaderValue, index := k - 1, headerState := if k == 7 then TeChunked else TeMatchingChunked, nread := p.nread + k)
  }

  lemma CodingLetters(v: string, k: nat)
    requires IsChunked(v) && k < 7
    ensures v[k] !in {' ', '\t', CR, LF} && IsHeaderChar(v[k]) && Lower(v[k]) == CHUNKED[k]
  {}

  lemma CodingStart(p: Parser, ch: char)
    requires p.state.HeaderValueDiscardWs? && p.headerState.TransferEncoding? && Lower(ch) == 'c' && ch !in {' ', '\t', CR, LF}
    ensures Switch(Counted(p), ch) == Out(CodingRead(p, 1), [MarkAt(Value)], Next) && ParsingHeader(p.state)
  {
    hide Lower;
  }

  lemma CodingByte(p: Parser, k: nat, ch: char)
    requires 1 <= k < 7 && Lower(ch) == CHUNKED[k] && ch != CR && ch != LF && IsHeaderChar(ch)
    ensures Switch(Counted(CodingRead(p, k)), ch) == Out(CodingRead(p, k + 1), [], Next)
    ensures ParsingHeader(CodingRead(p, k).state)
  {
    hide Switch, Lower, IsHeaderChar;
    ValueSwitch(Counted(CodingRead(p, k)), ch);
  }

  lemma {:induction false} ReadsCoding(m: Machine, v: string, k: nat)
    requires m.p.state.HeaderValueDiscardWs? && m.p.headerState.TransferEncoding? && m.mark.Unmarked?
    requires IsChunked(v) && 1 <= k <= 7 && Affords(m.p, k)
    ensures Reads(m, v[..k], Machine(CodingRead(m.p, k), Marked(Value, v[..k]), m.events))
    decreases k
  {
    hide Switch, Reads, ParsingHeader, Lower, IsHeaderChar;
    var init, last := v[..k - 1], v[k - 1];
    CodingLetters(v, k - 1);
    assert v[..k] == init + [last];
    if k == 1 {
      assert v[..1] == [last];
      CodingStart(m.p, last);
      MarkByte(m, last, CodingRead(m.p, 1), Value);
    } else {
      ReadsCoding(m, v, k - 1);
      var m1 := Machine(CodingRead(m.p, k - 1), Marked(Value, init), m.events);
      CodingByte(m.p, k - 1, last);
      PlainByte(m1, last, CodingRead(m.p, k));
      ReadsThen(m, init, m1, [last], Extended(m1.(p := CodingRead(m.p, k)), last));
    }
  }

  /** What the header leaves. */
  predicate CodingLineRead(m: Machine, h: Header, m': Machine) {
    && Ready(m')
    && Settle(m') == Machine(
         m.p.(headerState := Settle(m').p.headerState, index := Settle(m').p.index,
              flags := m.p.flags.(transferEncoding := true, chunked := true), nread := m.p.nread + |Line(h)|),
         Unmarked, m.events + LineEvents(h))
  }

  lemma CodingName(p: Parser, name: string)
    requires IsToken(name) && Folded(name) == TRANSFER_ENCODING
    ensures var q := NameRead(p, name);
            NameFrame(p, q) && q.flags == p.flags.(transferEncoding := true) && q.headerState.TransferEncoding?
  {
    hide Tracked, NameRead, IsToken, SetsTransferEncoding;
    NameTracked(p, name);
    NameClassified(p, name);
    WholeLiteralSets();
  }

  lemma ReadsCodingHeader(m: Machine, h: Header) returns (m': Machine)
    requires m.p.state.HeaderFieldStart? && m.mark.Unmarked? && CodingHeader(h) && Affords(m.p, |Line(h)|)
    ensures Reads(m, Line(h), m') && CodingLineRead(m, h, m')
  {
    hide Switch, Reads, NameRead, IsToken;
    CodingName(m.p, h.name);
    ReadsNameColon(m, h.name);
    var m1 := Machine(BeforeValue(m.p, h.name), Unmarked, m.events + [Data(Field, h.name)]);
    ReadsCoding(m1, h.value, 7);
    assert h.value[..7] == h.value;
    var q := CodingRead(m1.p, 7);
    var m2 := Machine(q, Marked(Value, h.value), m1.events);
    ReadsLineEnd(m2);
    m' := Machine(q.(state := HeaderValueLws, nread := q.nread + 2), Unmarked, m2.events + [Data(Value, h.value)]);
    ReadsThen(m, h.name + ": ", m1, h.value, m2);
    ReadsThen(m, h.name + ": " + h.value, m2, "\r\n", m');
    assert m.events + [Data(Field, h.name)] + [Data(Value, h.value)] == m.events + LineEvents(h);
  }
}
