/** What the parser puts up with beyond requests as they are printed: line feeds alone, values that go on
    on the next line, empty lines between requests; and what it does on a connection that is over. */
module HttpLeniency {
  import opened HttpTypes
  import opened HttpSwitch
  import opened HttpRun
  import opened HttpReads
  import opened HttpTargets
  import opened HttpLines
  import opened HttpConnection
  import opened HttpHeaders
  import opened HttpIndependence

  // ---------------------------------------------------------------- line feeds alone

  /** Where the request line, a header line or the header section may end. */
  predicate LineMayEnd(m: Machine) {
    || (MayEnd(m.p.state) && m.mark.Marked? && m.mark.kind.Url?)
    || (m.p.state.HeaderValue? && m.mark.Marked? && m.mark.kind.Value?)
    || (m.mark.Unmarked? && (m.p.state.ReqHttpEnd? || m.p.state.HeaderValueDiscardWs?))
    || Ready(m)
  }

  lemma FlushAlone(m: Machine, ch: char)
    requires m.mark.Marked?
    ensures PerformAll(m, [Flush(m.mark.kind)], ch) == Machine(m.p, Unmarked, m.events + [Data(m.mark.kind, m.mark.text)])
    ensures PerformAll(m, [], ch) == m
  {
    assert [Flush(m.mark.kind)][1..] == [];
  }

  lemma NoActs(m: Machine, ch: char)
    ensures PerformAll(m, [], ch) == m
  {}

  lemma UrlEndSwitch(p: Parser)
    requires MayEnd(p.state)
    ensures Switch(p, CR) == Out(p.(state := ReqLineAlmostDone, major := 0, minor := 9), [Flush(Url)], Next)
    ensures Switch(p, LF) == Out(p.(state := HeaderFieldStart, major := 0, minor := 9), [Flush(Url)], Next)
  {}

  lemma RestSwitch(p: Parser)
    ensures p.state.ReqLineAlmostDone? ==> Switch(p, LF) == Out(p.(state := HeaderFieldStart), [], Next)
    ensures p.state.ReqHttpEnd? ==> Switch(p, CR) == Out(p.(state := ReqLineAlmostDone), [], Next)
    ensures p.state.ReqHttpEnd? ==> Switch(p, LF) == Out(p.(state := HeaderFieldStart), [], Next)
    ensures p.state.HeaderValueDiscardWs? ==> Switch(p, CR) == Out(p.(state := HeaderValueDiscardWsAlmostDone), [], Next)
    ensures p.state.HeaderValueDiscardWs? ==> Switch(p, LF) == Out(p.(state := HeaderValueDiscardLws), [], Next)
    ensures p.state.HeaderValueDiscardWsAlmostDone? ==> Switch(p, LF) == Out(p.(state := HeaderValueDiscardLws), [], Next)
  {
    hide ParseUrlChar, OnValueStart;
  }

  lemma UrlLineFeed(m: Machine)
    requires MayEnd(m.p.state) && m.mark.Marked? && m.mark.kind.Url?
    ensures var h := Passes(m, CR); h.ctl.Next? && h.m.mark.Unmarked? && Passes(h.m, LF) == Passes(m, LF) && ParsingHeader(h.m.p.state)
  {
    hide Switch, MayEnd;
    UrlEndSwitch(m.p);
    var p1 := m.p.(state := ReqLineAlmostDone, major := 0, minor := 9);
    FlushAlone(m.(p := p1), CR);
    var p2 := p1.(state := HeaderFieldStart);
    FlushAlone(m.(p := p2), LF);
    RestSwitch(p1);
    NoActs(Machine(p2, Unmarked, m.events + [Data(Url, m.mark.text)]), LF);
  }

  lemma ValueLineFeed(m: Machine)
    requires m.p.state.HeaderValue? && m.mark.Marked? && m.mark.kind.Value?
    ensures var h := Passes(m, CR); h.ctl.Next? && h.m.mark.Unmarked? && Passes(h.m, LF) == Passes(m, LF) && ParsingHeader(h.m.p.state)
  {
    var p1 := m.p.(state := HeaderAlmostDone);
    assert Switch(m.p, CR) == Out(p1, [Flush(Value)], Next) && Switch(m.p, LF) == Out(p1, [Flush(Value)], Again);
    FlushAlone(m.(p := p1), CR);
    FlushAlone(m.(p := p1), LF);
  }

  lemma FieldLineFeed(m: Machine)
    requires m.p.state.HeaderFieldStart? && m.mark.Unmarked?
    ensures var h := Passes(m, CR); h.ctl.Next? && h.m.mark.Unmarked? && Passes(h.m, LF) == Passes(m, LF) && ParsingHeader(h.m.p.state)
  {
    var p1 := m.p.(state := HeadersAlmostDone);
    assert Switch(m.p, CR) == Out(p1, [], Next) && Switch(m.p, LF) == Out(p1, [], Again);
    NoActs(m.(p := p1), CR);
  }

  lemma OtherLineFeed(m: Machine)
    requires m.mark.Unmarked? && (m.p.state.ReqHttpEnd? || m.p.state.HeaderValueDiscardWs?)
    ensures var h := Passes(m, CR); h.ctl.Next? && h.m.mark.Unmarked? && Passes(h.m, LF) == Passes(m, LF) && ParsingHeader(h.m.p.state)
  {
    hide Switch;
    RestSwitch(m.p);
    var p1 := Switch(m.p, CR).p;
    RestSwitch(p1);
    NoActs(m.(p := p1), CR);
    NoActs(m.(p := Switch(m.p, LF).p), LF);
  }

  lemma LineFeed(m: Machine)
    requires LineMayEnd(m)
    ensures var h := Passes(m, CR); h.ctl.Next? && h.m.mark.Unmarked? && Passes(h.m, LF) == Passes(m, LF) && ParsingHeader(h.m.p.state)
  {
    hide Passes, MayEnd, Ready, ParsingHeader;
    if MayEnd(m.p.state) && m.mark.Marked? && m.mark.kind.Url? { UrlLineFeed(m); }
    else if m.p.state.HeaderValue? && m.mark.Marked? && m.mark.kind.Value? { ValueLineFeed(m); }
    else if Ready(m) {
      SettlePasses(m, CR);
      SettlePasses(m, LF);
      SettledStarts(m);
      FieldLineFeed(Settle(m));
    } else { OtherLineFeed(m); }
  }

  lemma SettledStarts(m: Machine)
    requires Ready(m)
    ensures Settle(m).p.state.HeaderFieldStart? && Settle(m).mark.Unmarked?
  {}

  lemma MayEndCounts(p: Parser)
    requires MayEnd(p.state) || p.state in {HeaderValue, ReqHttpEnd, HeaderValueDiscardWs, HeaderFieldStart, HeaderValueLws, HeaderValueDiscardLws}
    ensures ParsingHeader(p.state)
  {}

  lemma CountedStays(m: Machine)
    requires LineMayEnd(m)
    ensures ParsingHeader(m.p.state) && LineMayEnd(m.(p := m.p.(nread := m.p.nread + 1)))
  {
    hide MayEnd, ParsingHeader;
    MayEndCounts(m.p);
  }

  lemma BudgetEcho(m: Machine, n: nat)
    requires m.p.nread <= n
    ensures Echo(m.(p := m.p.(nread := n)), m, [])
  {
    assert [] + m.events == m.events;
  }

  /** The rest of the input after one line feed that has been counted, and after one that came with a carriage return. */
  lemma RestEcho(a: Machine, b: Machine, s: string)
    requires Echo(a, b, []) && s != "" && MidByte(a, s).ctl != Fail(HEADER_OVERFLOW)
    ensures var r, r' := MidByte(a, s), MidByte(b, s);
            r.ctl == r'.ctl && r.consumed == r'.consumed && Echo(r.m, r'.m, [])
  {
    hide Passes, Canon, Run;
    PassesEcho(a, b, [], s[0]);
    var h, h' := Passes(a, s[0]), Passes(b, s[0]);
    if h.ctl.Next? { RunEcho(Extended(h.m, s[0]), Extended(h'.m, s[0]), [], s[1..]); }
  }

  /** Where a line may end, a line feed alone is as good as a carriage return and a line feed, whatever
      follows, save that one byte less is consumed and counted. */
  lemma BareLineFeed(m: Machine, rest: string)
    requires LineMayEnd(m) && Run(m, "\r\n" + rest).ctl != Fail(HEADER_OVERFLOW)
    ensures var r, r' := Run(m, "\r\n" + rest), Run(m, "\n" + rest);
            r.ctl == r'.ctl && r.consumed == r'.consumed + 1 && Echo(r.m, r'.m, [])
  {
    hide Passes, LineMayEnd, ParsingHeader, Run, Echo, MidByte;
    var s, t := "\r\n" + rest, "\n" + rest;
    CountedStays(m);
    var c := m.(p := m.p.(nread := m.p.nread + 1));
    LineFeed(c);
    RunCounts(m, s);
    RunCounts(m, t);
    assert s[0] == CR && s[1..] == t && t[0] == LF;
    var m1 := Passes(c, CR).m;
    AfterReturn(c, s, m1);
    RunCounts(m1, t);
    var d := m1.(p := m1.p.(nread := m1.p.nread + 1));
    BudgetEcho(m1, d.p.nread);
    RestEcho(d, m1, t);
    SamePasses(m1, c, t);
  }

  lemma AfterReturn(c: Machine, s: string, m1: Machine)
    requires s != "" && s[0] == CR && Passes(c, CR) == Handled(m1, Next) && m1.mark.Unmarked?
    ensures MidByte(c, s) == Later(Run(m1, s[1..]), 1)
  {
    hide Passes, Run;
  }

  lemma SamePasses(a: Machine, b: Machine, s: string)
    requires s != "" && s[0] == LF && Passes(a, LF) == Passes(b, LF)
    ensures MidByte(a, s) == MidByte(b, s)
  {
    hide Passes, Run;
  }

  // ---------------------------------------------------------------- values that go on on the next line

  lemma FoldSwitch(p: Parser, c: char)
    requires (c == ' ' || c == '\t') && p.headerState.General?
    ensures p.state.HeaderValueLws? ==> ParsingHeader(p.state) && Switch(p, c) == Out(p.(state := HeaderValueStart), [], Again)
    ensures p.state.HeaderValueStart? ==> Switch(p, c) == Out(p.(state := HeaderValue, index := 0), [MarkAt(Value)], Next)
  {
    hide Recorded, Lower;
  }

  lemma FoldStarts(m: Machine, c: char)
    requires m.p.state.HeaderValueLws? && m.p.headerState.General? && m.mark.Unmarked? && (c == ' ' || c == '\t') && Affords(m.p, 1)
    ensures Reads(m, [c], Machine(m.p.(state := HeaderValue, index := 0, nread := m.p.nread + 1), Marked(Value, [c]), m.events))
  {
    hide Switch, ParsingHeader;
    FoldSwitch(m.p, c);
    var n := m.(p := m.p.(nread := m.p.nread + 1));
    FoldSwitch(n.p, c);
    var n1 := n.(p := n.p.(state := HeaderValueStart));
    NoActs(n1, c);
    FoldSwitch(n1.p, c);
    var p2 := n1.p.(state := HeaderValue, index := 0);
    assert [MarkAt(Value)][1..] == [];
    assert PerformAll(n1.(p := p2), [MarkAt(Value)], c) == Machine(p2, Marked(Value, ""), m.events);
    assert Passes(n, c) == Passes(n1, c);
    assert "" + [c] == [c];
    ReadsByte(m, c, Machine(p2, Marked(Value, [c]), m.events));
  }

  lemma GeneralSwitch(p: Parser, c: char)
    requires p.state.HeaderValue? && p.headerState.General? && IsHeaderChar(c) && c != CR && c != LF
    ensures ParsingHeader(p.state) && Switch(Counted(p), c) == Out(p.(nread := p.nread + 1), [], Next)
  {
    hide IsHeaderChar, Lower;
  }

  lemma {:induction false} GeneralReads(m: Machine, v: string)
    requires m.p.state.HeaderValue? && m.p.headerState.General? && m.mark.Marked? && ValueChars(v) && Affords(m.p, |v|)
    ensures Reads(m, v, Machine(m.p.(nread := m.p.nread + |v|), Marked(m.mark.kind, m.mark.text + v), m.events))
    decreases |v|
  {
    hide Switch, Reads, IsHeaderChar, ParsingHeader;
    if v == "" {
      ReadsNothing(m);
      assert m.mark.text + "" == m.mark.text;
    } else {
      assert v[0] in v && forall c <- v[1..] :: c in v;
      GeneralSwitch(m.p, v[0]);
      var q := m.p.(nread := m.p.nread + 1);
      PlainByte(m, v[0], q);
      var m1 := Extended(m.(p := q), v[0]);
      GeneralReads(m1, v[1..]);
      assert m.mark.text + [v[0]] + v[1..] == m.mark.text + v;
      var m2 := Machine(m.p.(nread := m.p.nread + |v|), Marked(m.mark.kind, m.mark.text + v), m.events);
      ReadsThen(m, [v[0]], m1, v[1..], m2);
      assert [v[0]] + v[1..] == v;
    }
  }

  /** A line that begins with white space goes on with the value of the header before; it is delivered as
      one more value, the white space included. */
  lemma ReadsContinuation(m: Machine, c: char, v: string)
    requires m.p.state.HeaderValueLws? && m.p.headerState.General? && m.mark.Unmarked? && Affords(m.p, |v| + 3)
    requires (c == ' ' || c == '\t') && ValueChars(v)
    ensures Reads(m, [c] + v + "\r\n", Machine(m.p.(index := 0, nread := m.p.nread + |v| + 3), Unmarked, m.events + [Data(Value, [c] + v)]))
  {
    hide Reads;
    FoldStarts(m, c);
    var m1 := Machine(m.p.(state := HeaderValue, index := 0, nread := m.p.nread + 1), Marked(Value, [c]), m.events);
    GeneralReads(m1, v);
    var m2 := Machine(m1.p.(nread := m1.p.nread + |v|), Marked(Value, [c] + v), m.events);
    ReadsThen(m, [c], m1, v, m2);
    ReadsLineEnd(m2);
    ReadsThen(m, [c] + v, m2, "\r\n", Machine(m.p.(index := 0, nread := m.p.nread + |v| + 3), Unmarked, m.events + [Data(Value, [c] + v)]));
  }

  // ---------------------------------------------------------------- between requests

  predicate LineEnds(s: string) { forall c <- s :: c == CR || c == LF }

  lemma IdleSwitch(p: Parser, c: char)
    requires p.state.Dead? || p.state.StartReq?
    ensures ParsingHeader(p.state) && (c == CR || c == LF ==> Switch(p, c) == Out(p, [], Next))
    ensures p.state.Dead? && c != CR && c != LF ==> Switch(p, c) == Err(p, CLOSED_CONNECTION)
  {
    hide FirstMethod;
  }

  /** Carriage returns and line feeds before a request, or after the last one, are skipped. */
  lemma {:induction false} SkipsLineEnds(m: Machine, s: string)
    requires (m.p.state.Dead? || m.p.state.StartReq?) && m.mark.Unmarked? && LineEnds(s) && Affords(m.p, |s|)
    ensures Reads(m, s, m.(p := m.p.(nread := m.p.nread + |s|)))
    decreases |s|
  {
    hide Switch, Reads, ParsingHeader;
    if s == "" {
      ReadsNothing(m);
    } else {
      assert s[0] in s && forall c <- s[1..] :: c in s;
      IdleSwitch(m.p, s[0]);
      IdleSwitch(Counted(m.p), s[0]);
      var q := m.p.(nread := m.p.nread + 1);
      PlainByte(m, s[0], q);
      SkipsLineEnds(m.(p := q), s[1..]);
      ReadsThen(m, [s[0]], m.(p := q), s[1..], m.(p := m.p.(nread := m.p.nread + |s|)));
      assert [s[0]] + s[1..] == s;
    }
  }

  /** How many carriage returns and line feeds a text begins with. */
  function Blanks(s: string): (n: nat)
    ensures n <= |s| && LineEnds(s[..n]) && (n < |s| ==> s[n] != CR && s[n] != LF)
  {
    if s == "" || (s[0] != CR && s[0] != LF) then 0
    else
      var n := 1 + Blanks(s[1..]);
      assert s[..n] == [s[0]] + s[1..][..n - 1];
      n
  }

  lemma DeadByte(m: Machine, s: string)
    requires m.p.state.Dead? && s != "" && s[0] != CR && s[0] != LF && Affords(m.p, 1)
    ensures Run(m, s) == Result(m.(p := m.p.(nread := m.p.nread + 1)), 0, Fail(CLOSED_CONNECTION))
  {
    hide Switch;
    IdleSwitch(m.p, s[0]);
    var n := m.(p := m.p.(nread := m.p.nread + 1));
    IdleSwitch(n.p, s[0]);
    NoActs(n, s[0]);
    RunCounts(m, s);
  }

  lemma {:induction false} DeadRun(m: Machine, s: string)
    requires m.p.state.Dead? && m.mark.Unmarked? && Affords(m.p, |s|)
    ensures var n := Blanks(s);
            && Run(m, s).consumed == n && Run(m, s).m == m.(p := m.p.(nread := m.p.nread + if LineEnds(s) then n else n + 1))
            && Run(m, s).ctl == if LineEnds(s) then Next else Fail(CLOSED_CONNECTION)
  {
    hide Run, Blanks;
    var n := Blanks(s);
    SkipsLineEnds(m, s[..n]);
    var m1 := m.(p := m.p.(nread := m.p.nread + n));
    assert s[..n] + s[n..] == s;
    RunConcat(m, s[..n], s[n..]);
    if n < |s| {
      assert s[n] in s;
      DeadByte(m1, s[n..]);
    } else {
      RunEmpty(m1);
      assert s[..n] == s && s[n..] == "";
    }
  }

  /** A connection that is over takes nothing but carriage returns and line feeds. */
  lemma Closed(p: Parser, past: seq<Event>, s: string)
    requires p.state.Dead? && Affords(p, |s|)
    ensures var o := Execute(p, past, s);
            && o.events == past && !o.exited && o.consumed == Blanks(s) && o.p.state.Dead?
            && o.errno == if LineEnds(s) then OK else CLOSED_CONNECTION
  {
    hide Run, LineEnds;
    DeadRun(Machine(p, Unmarked, past), s);
  }
}
