/** The end of the request line: the request target and the protocol version, read by the
    byte-at-a-time machine. */
module HttpTargets {
  import opened HttpTypes
  import opened Options
  import opened Decimals
  import opened HttpSwitch
  import opened HttpRun
  import opened HttpReads
  import opened UrlGrammar

  // ---------------------------------------------------------------- the request target

  /** The states in which a target may end. */
  predicate MayEnd(s: State) {
    s.ReqServer? || s.ReqServerWithAt? || s.ReqPath? || s.ReqQueryStringStart? || s.ReqQueryString? || s.ReqFragmentStart?
    || s.ReqFragment?
  }

  /** A request target: a URL by the grammar, with an authority or a path; after CONNECT one that begins
      with its authority. */
  predicate Target(t: string, connect: bool) {
    Read(t, connect).Some? && MayEnd(StateOf(Read(t, connect).value, connect))
  }

  lemma EndsThere(x: Pieces, connect: bool)
    requires Fits(x, connect)
    ensures MayEnd(StateOf(x, connect)) <==> x.authority != "" || x.path != "" || x.mark != ""
  {
    hide Every, SingleAts;
  }

  lemma TargetIs(t: string, connect: bool)
    ensures Target(t, connect) <==> exists x :: Fits(x, connect) && Text(x) == t && (x.authority != "" || x.path != "" || x.mark != "")
  {
    hide Fits, Text, Read, StateOf, MayEnd;
    if Target(t, connect) {
      var x := Read(t, connect).value;
      ReadFits(t, connect);
      EndsThere(x, connect);
      assert Fits(x, connect) && Text(x) == t;
    }
    if x :| Fits(x, connect) && Text(x) == t && (x.authority != "" || x.path != "" || x.mark != "") {
      FitsRead(x, connect);
      EndsThere(x, connect);
    }
  }

  lemma FirstLetter(s: string)
    requires s != "" && Every(s, IsAlpha)
    ensures IsAlpha(s[0])
  {
    assert s[0] in s;
  }

  lemma PathGoesOn(x: Pieces, t: string, c: char)
    requires Fits(x, false) && Text(x) == t && t != "" && t[0] == '/' && MayEnd(StateOf(x, false)) && '!' <= c <= '~'
    ensures var s := ParseUrlChar(StateOf(x, false), c);
            !s.Dead? && Fits(Put(x, SlotOf(s), c), false) && MayEnd(StateOf(Put(x, SlotOf(s), c), false))
  {
    hide Every, SingleAts, IsUserinfoChar, IsAlpha;
    if x.schema != "" { assert t[0] == x.schema[0]; FirstLetter(x.schema); assert !IsAlpha('/') by { NoLetter(); } }
    PutFits(x, false, c);
  }

  lemma NoLetter()
    ensures !IsAlpha('/')
  {}

  /** A slash and any visible ASCII will do: origin form, and more. */
  lemma {:induction false} OriginTarget(t: string)
    requires t != "" && t[0] == '/' && forall c <- t :: '!' <= c <= '~'
    ensures Target(t, false)
    decreases |t|
  {
    hide Fits, StateOf, MayEnd, ParseUrlChar, Put, SlotOf;
    assert Last(t) in t;
    if |t| == 1 {
      assert Init(t) == "" && Last(t) == '/';
      assert Read(Init(t), false) == Some(NOTHING);
      SlashAlone();
    } else {
      assert forall c <- Init(t) :: c in t;
      OriginTarget(Init(t));
      ReadFits(Init(t), false);
      PathGoesOn(Read(Init(t), false).value, Init(t), Last(t));
    }
  }

  lemma SlashAlone()
    ensures var s := ParseUrlChar(StateOf(NOTHING, false), '/'); !s.Dead? && MayEnd(StateOf(Put(NOTHING, SlotOf(s), '/'), false))
  {}

  lemma FirstByteSwitch(p: Parser, ch: char)
    requires p.state.ReqSpacesBeforeUrl? && !ParseUrlChar(StateOf(NOTHING, p.verb.CONNECT?), ch).Dead?
    ensures ParsingHeader(p.state)
    ensures Switch(Counted(p), ch)
         == Out(p.(state := ParseUrlChar(StateOf(NOTHING, p.verb.CONNECT?), ch), nread := p.nread + 1), [MarkAt(Url)], Next)
  {
    hide IsUrlChar, IsUserinfoChar, IsAlpha;
  }

  lemma NextByteSwitch(p: Parser, ch: char)
    requires InUrl(p.state) && !ParseUrlChar(p.state, ch).Dead?
    ensures ParsingHeader(p.state)
    ensures Switch(Counted(p), ch) == Out(p.(state := ParseUrlChar(p.state, ch), nread := p.nread + 1), [], Next)
  {
    hide IsUrlChar, IsUserinfoChar, IsAlpha;
  }

  lemma {:induction false} ReadsUrl(m: Machine, t: string)
    requires m.p.state.ReqSpacesBeforeUrl? && m.mark.Unmarked? && t != "" && Affords(m.p, |t|)
    requires Read(t, m.p.verb.CONNECT?).Some?
    ensures var s := StateOf(Read(t, m.p.verb.CONNECT?).value, m.p.verb.CONNECT?);
            InUrl(s) && Reads(m, t, Machine(m.p.(state := s, nread := m.p.nread + |t|), Marked(Url, t), m.events))
    decreases |t|
  {
    hide Switch, Reads, ParsingHeader, Fits, StateOf, ParseUrlChar, Put, SlotOf;
    var connect := m.p.verb.CONNECT?;
    var init, last := Init(t), Last(t);
    Snoc(t);
    var x := Read(init, connect).value;
    ReadFits(init, connect);
    PutFits(x, connect, last);
    if init == "" {
      assert t == [last];
      FirstByteSwitch(m.p, last);
      MarkByte(m, last, m.p.(state := ParseUrlChar(StateOf(x, connect), last), nread := m.p.nread + 1), Url);
    } else {
      ReadsUrl(m, init);
      var m1 := Machine(m.p.(state := StateOf(x, connect), nread := m.p.nread + |init|), Marked(Url, init), m.events);
      NextByteSwitch(m1.p, last);
      var q := m1.p.(state := ParseUrlChar(m1.p.state, last), nread := m1.p.nread + 1);
      PlainByte(m1, last, q);
      ReadsThen(m, init, m1, [last], Extended(m1.(p := q), last));
    }
  }

  lemma NothingEnds(connect: bool)
    ensures !Target("", connect)
  {
    hide Every;
    assert Read("", connect) == Some(NOTHING);
  }

  lemma ReadsTarget(m: Machine, t: string) returns (s: State)
    requires m.p.state.ReqSpacesBeforeUrl? && m.mark.Unmarked? && Target(t, m.p.verb.CONNECT?) && Affords(m.p, |t|)
    ensures MayEnd(s) && Reads(m, t, Machine(m.p.(state := s, nread := m.p.nread + |t|), Marked(Url, t), m.events))
  {
    hide Reads, Read, MayEnd, StateOf;
    NothingEnds(m.p.verb.CONNECT?);
    ReadsUrl(m, t);
    s := StateOf(Read(t, m.p.verb.CONNECT?).value, m.p.verb.CONNECT?);
  }

  // ---------------------------------------------------------------- the protocol version

  /** The version on the request line; it may be missing. */
  datatype Protocol = NoVersion | Version(major: nat, minor: nat)

  predicate ProtocolOk(v: Protocol) { v.Version? ==> v.major < 10 && v.minor < 10 }

  /** A request line without a version counts as HTTP/0.9. */
  function Major(v: Protocol): nat { if v.NoVersion? then 0 else v.major }
  function Minor(v: Protocol): nat { if v.NoVersion? then 9 else v.minor }

  /** What follows the target. */
  function ProtocolText(v: Protocol): string
    requires ProtocolOk(v)
  {
    if v.NoVersion? then "\r\n" else " " + VersionText(v)
  }

  function VersionText(v: Protocol): (s: string)
    requires ProtocolOk(v) && v.Version?
    ensures |s| == 10
  {
    "HTTP/" + [DigitChar(v.major), '.', DigitChar(v.minor)] + "\r\n"
  }

  function VersionState(k: nat): State {
    match k
    case 0 => ReqHttpStart case 1 => ReqHttpH case 2 => ReqHttpHT case 3 => ReqHttpHTT case 4 => ReqHttpHTTP
    case 5 => ReqHttpMajor case 6 => ReqHttpDot case 7 => ReqHttpMinor case 8 => ReqHttpEnd case 9 => ReqLineAlmostDone
    case _ => HeaderFieldStart
  }

  /** The parser after `k` bytes of the version. */
  function VersionAt(p: Parser, v: Protocol, k: nat): Parser
    requires v.Version? && k <= 10
  {
    p.(state := VersionState(k), nread := p.nread + k, major := if k >= 6 then v.major else p.major, minor := if k >= 8 then v.minor else p.minor)
  }

  lemma VersionSwitch(p: Parser, v: Protocol, k: nat)
    requires v.Version? && ProtocolOk(v) && k < 10
    ensures Switch(Counted(VersionAt(p, v, k)), VersionText(v)[k]) == Out(VersionAt(p, v, k + 1), [], Next)
    ensures ParsingHeader(VersionAt(p, v, k).state)
  {
    hide ParseUrlChar, IsNum, DigitChar;
    DigitChars(v.major);
    DigitChars(v.minor);
  }

  lemma DigitChars(d: nat)
    requires d < 10
    ensures IsNum(DigitChar(d)) && DigitChar(d) as int - '0' as int == d
  {}

  lemma {:induction false} ReadsVersion(m: Machine, v: Protocol, k: nat)
    requires v.Version? && ProtocolOk(v) && m.p.state.ReqHttpStart? && m.mark.Unmarked? && k <= 10 && Affords(m.p, k)
    ensures Reads(m, VersionText(v)[..k], m.(p := VersionAt(m.p, v, k)))
    decreases k
  {
    hide Switch, Reads, VersionText;
    if k == 0 {
      ReadsNothing(m);
      assert m.(p := VersionAt(m.p, v, 0)) == m;
    } else {
      ReadsVersion(m, v, k - 1);
      var m1 := m.(p := VersionAt(m.p, v, k - 1));
      VersionSwitch(m.p, v, k - 1);
      PlainByte(m1, VersionText(v)[k - 1], VersionAt(m.p, v, k));
      assert VersionText(v)[..k] == VersionText(v)[..k - 1] + [VersionText(v)[k - 1]];
      ReadsThen(m, VersionText(v)[..k - 1], m1, [VersionText(v)[k - 1]], m.(p := VersionAt(m.p, v, k)));
    }
  }

  lemma TargetEndSwitch(p: Parser)
    requires MayEnd(p.state)
    ensures ParsingHeader(p.state)
    ensures Switch(Counted(p), ' ') == Out(p.(state := ReqHttpStart, nread := p.nread + 1), [Flush(Url)], Next)
    ensures Switch(Counted(p), CR) == Out(p.(state := ReqLineAlmostDone, major := 0, minor := 9, nread := p.nread + 1), [Flush(Url)], Next)
  {}

  lemma LineDoneSwitch(p: Parser)
    requires p.state.ReqLineAlmostDone?
    ensures ParsingHeader(p.state) && Switch(Counted(p), LF) == Out(p.(state := HeaderFieldStart, nread := p.nread + 1), [], Next)
  {}

  /** The rest of the request line, whatever the version, and without one. */
  lemma ReadsProtocol(m: Machine, v: Protocol)
    requires MayEnd(m.p.state) && m.mark.Marked? && m.mark.kind.Url? && ProtocolOk(v) && Affords(m.p, |ProtocolText(v)|)
    ensures Reads(m, ProtocolText(v),
                  Machine(m.p.(state := HeaderFieldStart, major := Major(v), minor := Minor(v), nread := m.p.nread + |ProtocolText(v)|),
                          Unmarked, m.events + [Data(Url, m.mark.text)]))
  {
    hide Switch, Reads, ParsingHeader, MayEnd, VersionText;
    TargetEndSwitch(m.p);
    var events := m.events + [Data(Url, m.mark.text)];
    if v.NoVersion? {
      var p1 := m.p.(state := ReqLineAlmostDone, major := 0, minor := 9, nread := m.p.nread + 1);
      FlushByte(m, CR, p1);
      LineDoneSwitch(p1);
      var p2 := p1.(state := HeaderFieldStart, nread := p1.nread + 1);
      PlainByte(Machine(p1, Unmarked, events), LF, p2);
      ReadsThen(m, [CR], Machine(p1, Unmarked, events), [LF], Machine(p2, Unmarked, events));
      assert [CR] + [LF] == "\r\n";
    } else {
      var p1 := m.p.(state := ReqHttpStart, nread := m.p.nread + 1);
      var m1 := Machine(p1, Unmarked, events);
      FlushByte(m, ' ', p1);
      ReadsVersion(m1, v, 10);
      assert VersionText(v)[..10] == VersionText(v);
      ReadsThen(m, " ", m1, VersionText(v), m1.(p := VersionAt(p1, v, 10)));
    }
  }
}
