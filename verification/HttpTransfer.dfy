/** How the parser decides where a request ends, section 3.3.3 of RFC 7230: the decision is never
    ambiguous, the chunked coding is only used when it is the last one, and a body of declared
    length is delivered to the byte. */
module HttpTransfer {
  import opened HttpTypes
  import opened HttpSwitch
  import opened HttpRun
  import opened HttpInvariant
  import opened HttpMarks
  import opened HttpScan
  import opened HttpReads
  import opened HttpMethods
  import opened HttpNames
  import opened HttpLines
  import opened HttpHeaders
  import opened HttpSplit

  // ---------------------------------------------------------------- one framing at most

  /** A request in its body is framed in one way, and so was a request that has been completed. */
  predicate FramedOnce(p: Parser) {
    && (InChunk(p.state) ==> p.flags.chunked && p.flags.transferEncoding && !p.flags.contentLength)
    && (p.state.BodyIdentity? ==>
          p.flags.contentLength && !p.flags.transferEncoding && !p.flags.chunked && 0 < p.contentLength < NO_LENGTH)
    && (Idle(p.state) && !p.upgrade ==>
          && (p.flags.transferEncoding ==> p.flags.chunked)
          && (p.flags.transferEncoding && p.flags.contentLength ==> p.flags.trailing))
  }

  /** Whatever was received so far, in whatever pieces. A Content-Length next to a Transfer-Encoding
      in a completed request can only have come in the trailers. */
  lemma FramingUnambiguous(fragments: seq<string>)
    requires forall f | f in fragments :: f != ""
    ensures var o := FeedAll(INITIAL, [], fragments);
            o.errno == OK && !o.exited ==> FramedOnce(o.p)
  {
    hide Run, Execute, FeedAll;
    InitialInv();
    if fragments == [] {
      assert FeedAll(INITIAL, [], fragments) == Outcome(INITIAL, [], 0, OK, false) by { FeedNothing(INITIAL, []); }
    } else {
      AnySplit(INITIAL, [], fragments);
      ExecuteKeepsInv(INITIAL, [], Concat(fragments));
      if Execute(INITIAL, [], Concat(fragments)).errno == OK { InvFramed(Execute(INITIAL, [], Concat(fragments)).p); }
    }
  }

  lemma FeedNothing(p: Parser, events: seq<Event>)
    ensures FeedAll(p, events, []) == Outcome(p, events, 0, OK, false)
  {}

  lemma ExecuteKeepsInv(p: Parser, events: seq<Event>, data: string)
    requires ParserInv(p)
    ensures Execute(p, events, data).errno == OK ==> ParserInv(Execute(p, events, data).p)
  {
    hide Run, MachineInv, StateInv;
    ResumeInv(p, events);
    var m := Resume(p, events);
    if data != "" {
      RunKeepsInv(m, data);
      RunStops(m, data);
      if !Run(m, data).ctl.Fail? { ParserInvAt(Run(m, data).m); }
    }
  }

  lemma InvFramed(p: Parser)
    requires ParserInv(p)
    ensures FramedOnce(p)
  {}

  // ---------------------------------------------------------------- declared lengths

  /** In a body of declared length, what has been delivered and what remains always add up: any
      bytes short of the end are delivered as they are, and taken off the length. */
  lemma BodyConserved(m: Machine, s: string)
    requires MachineInv(m) && (m.p.state.BodyIdentity? || m.p.state.ChunkData?) && |s| < m.p.contentLength
    ensures var r := Run(m, s);
            && r.ctl.Next? && r.consumed == |s| && r.m.p == m.p.(contentLength := m.p.contentLength - |s|)
            && r.m.events == m.events && Pending(r.m.mark) == Pending(m.mark) + s
  {
    hide Run, MachineInv;
    InvBody(m);
    if s == "" {
      RunEmpty(m);
    } else {
      assert s[0..] == s && s[0..|s|] == s && s[|s|..] == "";
      BodyRun(m, s, 0, |s|);
      RunEmpty(Sliced(m, s));
    }
  }

  // ---------------------------------------------------------------- the last transfer coding

  predicate Blank(c: char) { c == ' ' || c == '\t' }

  /** What follows the last comma. */
  function LastElement(v: string): string {
    if v == "" then ""
    else if v[|v| - 1] == ',' then ""
    else LastElement(v[..|v| - 1]) + [v[|v| - 1]]
  }

  function TrimLeft(s: string): string {
    if s != "" && Blank(s[0]) then TrimLeft(s[1..]) else s
  }

  function TrimRight(s: string): string {
    if s != "" && Blank(s[|s| - 1]) then TrimRight(s[..|s| - 1]) else s
  }

  /** The first `k` letters of the coding name, in any case. */
  predicate CodingPrefix(s: string, k: nat) { |s| == k <= |CHUNKED| && forall i | 0 <= i < k :: Lower(s[i]) == CHUNKED[i] }

  /** What the list matcher knows about the value `w` read so far. */
  predicate ListRead(p: Parser, w: string) {
    var e := TrimLeft(LastElement(w));
    match p.headerState
    case TransferEncoding => LastElement(w) == w && e == ""
    case TeTokenStart => e == "" && p.index == 0
    case TeMatchingChunked => p.index < 6 && CodingPrefix(e, p.index + 1)
    case TeChunked => IsChunked(TrimRight(e))
    case TeToken => true
    case General => true
    case _ => false
  }

  lemma ElementSnoc(w: string, c: char)
    ensures LastElement(w + [c]) == if c == ',' then "" else LastElement(w) + [c]
  {
    assert (w + [c])[..|w|] == w;
  }

  lemma {:induction false} TrimLeftSnoc(s: string, c: char)
    ensures TrimLeft(s + [c]) == if TrimLeft(s) == "" && Blank(c) then "" else TrimLeft(s) + [c]
    decreases |s|
  {
    if s == "" {
      assert s + [c] == [c] && [c][1..] == "";
    } else {
      assert (s + [c])[1..] == s[1..] + [c];
      TrimLeftSnoc(s[1..], c);
    }
  }

  lemma TrimRightSnoc(s: string, c: char)
    ensures TrimRight(s + [c]) == if Blank(c) then TrimRight(s) else s + [c]
  {
    assert (s + [c])[..|s|] == s;
  }

  lemma WholePrefix(s: string)
    requires CodingPrefix(s, 7)
    ensures IsChunked(s) && TrimRight(s) == s
  {
    assert Lower(s[6]) == 'd';
  }

  /** One byte of a Transfer-Encoding value. */
  lemma ListByte(p: Parser, w: string, ch: char)
    requires ListRead(p, w) && !p.headerState.TransferEncoding?
    ensures var r := ValueByte(p, ch);
            r.ValueOk? ==> ListRead(r.p, w + [ch]) && !r.p.headerState.TransferEncoding? && r.p.flags.chunked == p.flags.chunked
  {
    hide Lower, Token, IsHeaderChar, IsChunked, TrimLeft, TrimRight, LastElement, CodingPrefix, Match, TokenStart;
    ElementSnoc(w, ch);
    TrimLeftSnoc(LastElement(w), ch);
    var e := TrimLeft(LastElement(w));
    match p.headerState
    case TeTokenStart => if IsHeaderChar(ch) { FirstOfCoding(p, e, ch); }
    case TeMatchingChunked =>
      NextOfCoding(p, e, ch);
      if CodingPrefix(e + [ch], 7) { WholePrefix(e + [ch]); }
    case TeToken => assert TrimLeft("") == "" by { TrimNothing(); }
    case TeChunked => TrimRightSnoc(e, ch); TrimNothing();
    case _ =>
  }

  lemma TrimNothing()
    ensures TrimLeft("") == "" && TrimRight("") == "" && !IsChunked("")
  {}

  lemma FirstOfCoding(p: Parser, e: string, ch: char)
    requires p.headerState.TeTokenStart? && p.index == 0 && e == "" && IsHeaderChar(ch)
    ensures var q := TokenStart(p, Lower(ch), TeToken);
            && q.flags == p.flags && q.index == 0
            && (q.headerState.TeMatchingChunked? ==> !Blank(ch) && ch != ',' && CodingPrefix(e + [ch], 1))
            && (q.headerState.TeTokenStart? ==> Blank(ch))
            && (q.headerState.TeTokenStart? || q.headerState.TeMatchingChunked? || q.headerState.TeToken? || q.headerState.General?)
  {
    hide Token;
  }

  lemma NextOfCoding(p: Parser, e: string, ch: char)
    requires p.headerState.TeMatchingChunked? && p.index < 6 && CodingPrefix(e, p.index + 1)
    ensures var q := Match(p, CHUNKED, Lower(ch), TeToken, TeChunked);
            && q.flags == p.flags
            && (q.headerState.TeToken?
                || (!Blank(ch) && ch != ','
                    && if q.headerState.TeMatchingChunked? then q.index < 6 && CodingPrefix(e + [ch], q.index + 1)
                       else q.headerState.TeChunked? && CodingPrefix(e + [ch], 7)))
  {
    hide Lower;
    LowerLetters(ch);
  }

  lemma LowerLetters(ch: char)
    ensures Lower(ch) in {'h', 'u', 'n', 'k', 'e', 'd'} ==> !Blank(ch) && ch != ','
  {}

  // ---------------------------------------------------------------- a whole Transfer-Encoding line

  /** The machine after a part `w` of the value, blanks in front included. */
  predicate ValueSoFar(m: Machine, w: string, chunked: bool) {
    && ListRead(m.p, w) && m.p.flags.chunked == chunked
    && if m.p.headerState.TransferEncoding? then m.p.state.HeaderValueDiscardWs? && m.mark.Unmarked?
       else m.p.state.HeaderValue? && m.mark.Marked? && m.mark.kind.Value?
  }

  lemma FirstListByte(p: Parser, w: string, ch: char)
    requires p.state.HeaderValueDiscardWs? && p.headerState.TransferEncoding? && ListRead(p, w) && ch != CR && ch != LF
    ensures var o := Switch(p, ch);
            && !o.ctl.Exit? && o.ctl.Next? && o.p.flags == p.flags && ListRead(o.p, w + [ch])
            && if Blank(ch) then o == Stay(p)
               else o.p.state.HeaderValue? && !o.p.headerState.TransferEncoding? && o.acts == [MarkAt(Value)]
  {
    hide Lower, LastElement;
    ElementSnoc(w, ch);
    TrimLeftSnoc(w, ch);
    if !Blank(ch) {
      LowerComma(ch);
      assert Switch(p, ch) == OnValueStart(p, ch);
    }
  }

  lemma LowerComma(ch: char)
    ensures Lower(ch) == 'c' ==> ch != ','
  {}

  lemma ValueSoFarStep(m: Machine, w: string, ch: char)
    requires ValueSoFar(m, w, m.p.flags.chunked) && ch != CR && ch != LF && StepByte(m, ch).ctl.Next?
    ensures ValueSoFar(StepByte(m, ch).m, w + [ch], m.p.flags.chunked)
  {
    hide Switch, ListRead, ValueByte;
    var c := m.(p := Counted(m.p));
    CountedHeader(m.p);
    assert ListRead(c.p, w) by { SameList(m.p, c.p, w); }
    var o := Switch(c.p, ch);
    if m.p.headerState.TransferEncoding? {
      FirstListByte(c.p, w, ch);
      if !Blank(ch) {
        assert [MarkAt(Value)][1..] == [];
        assert PerformAll(c.(p := o.p), o.acts, ch) == Perform(c.(p := o.p), MarkAt(Value), ch);
      }
    } else {
      ValueSwitch(c.p, ch);
      ListByte(c.p, w, ch);
    }
    assert !o.ctl.Fail?;
    assert Passes(c, ch) == Handled(PerformAll(c.(p := o.p), o.acts, ch), Next);
  }

  lemma SameList(p: Parser, q: Parser, w: string)
    requires ListRead(p, w) && q.headerState == p.headerState && q.index == p.index
    ensures ListRead(q, w)
  {
    hide IsChunked, TrimLeft, TrimRight, LastElement, CodingPrefix;
  }

  lemma {:induction false} ReadsList(m: Machine, v: string)
    requires ValueSoFar(m, "", m.p.flags.chunked) && CR !in v && LF !in v && Run(m, v).ctl.Next?
    ensures ValueSoFar(Run(m, v).m, v, m.p.flags.chunked)
    decreases |v|
  {
    hide StepByte, ValueSoFar;
    if v == "" {
      RunEmpty(m);
    } else {
      var k := |v| - 1;
      var init, last := v[..k], v[k];
      assert v == init + [last] && last in v && forall c | c in init :: c in v;
      RunConcat(m, init, [last]);
      ReadsList(m, init);
      var m1 := Run(m, init).m;
      RunOne(m1, last);
      assert m1.p.flags.chunked == m.p.flags.chunked by { assert ValueSoFar(m1, init, m.p.flags.chunked); SoFarChunked(m1, init, m.p.flags.chunked); }
      ValueSoFarStep(m1, init, last);
    }
  }

  lemma SoFarChunked(m: Machine, w: string, chunked: bool)
    requires ValueSoFar(m, w, chunked)
    ensures m.p.flags.chunked == chunked
  {}

  lemma OverBudget(m: Machine, ch: char)
    requires ParsingHeader(m.p.state) && !Affords(m.p, 1)
    ensures Run(m, [ch]).ctl.Fail?
  {
    hide Passes, ParsingHeader;
    RunOne(m, ch);
  }

  /** The two line ends the parser knows. */
  predicate IsLineEnd(end: string) { end == "\r\n" || end == "\n" }

  /** A line end that was read was within the budget. */
  lemma LineEndAffords(m: Machine, end: string)
    requires IsLineEnd(end) && Run(m, end).ctl.Next?
    requires (m.p.state.HeaderValueDiscardWs? && m.mark.Unmarked?)
             || (m.p.state.HeaderValue? && m.mark.Marked? && m.mark.kind.Value?)
    ensures Affords(m.p, |end|)
  {
    hide Run, Switch, StepByte, ParsingHeader;
    LineStatesCount(m.p);
    if end == "\n" {
      assert end == [LF];
      if !Affords(m.p, 1) { OverBudget(m, LF); }
    } else {
      CrLfAffords(m);
    }
  }

  lemma CrLfAffords(m: Machine)
    requires Run(m, "\r\n").ctl.Next?
    requires (m.p.state.HeaderValueDiscardWs? && m.mark.Unmarked?)
             || (m.p.state.HeaderValue? && m.mark.Marked? && m.mark.kind.Value?)
    ensures Affords(m.p, 2)
  {
    hide Run, Switch, StepByte, ParsingHeader;
    LineStatesCount(m.p);
    assert [CR] + [LF] == "\r\n";
    RunConcat(m, [CR], [LF]);
    if !Affords(m.p, 1) {
      OverBudget(m, CR);
    } else {
      var p1 := m.p.(state := if m.p.state.HeaderValue? then HeaderAlmostDone else HeaderValueDiscardWsAlmostDone,
                     nread := m.p.nread + 1);
      LineStatesCount(p1);
      if m.p.state.HeaderValue? {
        ValueSwitchCr(Counted(m.p));
        FlushByte(m, CR, p1);
      } else {
        LineEndSwitch(Counted(m.p));
        PlainByte(m, CR, p1);
      }
      RunResult(m, [CR]);
      assert Run(m, [CR]).m.p == p1;
      if !Affords(p1, 1) { OverBudget(Run(m, [CR]).m, LF); }
    }
  }

  lemma RunResult(m: Machine, s: string)
    ensures forall m' :: Reads(m, s, m') ==> Run(m, s) == Result(m', |s|, Next)
  {}

  /** A bare LF after a value. */
  lemma ReadsBareEnd(m: Machine)
    requires m.p.state.HeaderValue? && m.mark.Marked? && m.mark.kind == Value && Affords(m.p, 1)
    ensures Reads(m, [LF], Machine(m.p.(state := HeaderValueLws, nread := m.p.nread + 1), Unmarked,
                                   m.events + [Data(Value, m.mark.text)]))
  {
    hide Switch, Reads, ParsingHeader;
    LineStatesCount(m.p);
    var c := m.(p := Counted(m.p));
    BareEndSwitch(c.p);
    var p1 := c.p.(state := HeaderAlmostDone);
    var m1 := Perform(c.(p := p1), Flush(Value), LF);
    assert PerformAll(c.(p := p1), [Flush(Value)], LF) == m1 by { assert [Flush(Value)][1..] == []; }
    LineEndSwitch(p1);
    var p2 := p1.(state := HeaderValueLws);
    assert Passes(m1, LF) == Handled(m1.(p := p2), Next) by { assert PerformAll(m1.(p := p2), [], LF) == m1.(p := p2); }
    assert Passes(c, LF) == Passes(m1, LF);
    ReadsByte(m, LF, m1.(p := p2));
  }

  lemma BareEndSwitch(p: Parser)
    requires p.state.HeaderValue?
    ensures Switch(p, LF) == Out(p.(state := HeaderAlmostDone), [Flush(Value)], Again)
  {}

  /** A bare LF in place of a value. */
  lemma ReadsBareEmpty(m: Machine)
    requires m.p.state.HeaderValueDiscardWs? && m.mark.Unmarked? && Affords(m.p, 1)
    ensures Reads(m, [LF], m.(p := m.p.(state := HeaderValueDiscardLws, nread := m.p.nread + 1)))
  {
    hide Switch, Reads, ParsingHeader;
    LineStatesCount(m.p);
    BareEmptySwitch(Counted(m.p));
    PlainByte(m, LF, m.p.(state := HeaderValueDiscardLws, nread := m.p.nread + 1));
  }

  lemma BareEmptySwitch(p: Parser)
    requires p.state.HeaderValueDiscardWs?
    ensures Switch(p, LF) == Out(p.(state := HeaderValueDiscardLws), [], Next)
  {}

  /** A line end ends the value; what the matcher found is recorded when the next line starts. */
  lemma ListLineEnd(m: Machine, w: string, end: string)
    requires ValueSoFar(m, w, false) && IsLineEnd(end) && Run(m, end).ctl.Next?
    ensures var m' := Run(m, end).m;
            && Ready(m') && (Settle(m').p.flags.chunked ==> IsChunked(TrimRight(TrimLeft(LastElement(w)))))
  {
    hide Run, Switch, StepByte, IsChunked, TrimLeft, TrimRight, LastElement, CodingPrefix;
    LineEndAffords(m, end);
    if m.p.headerState.TransferEncoding? {
      if end == "\n" { assert end == [LF]; ReadsBareEmpty(m); } else { ReadsEmptyValue(m); }
    } else {
      if end == "\n" { assert end == [LF]; ReadsBareEnd(m); } else { ReadsLineEnd(m); }
    }
  }

  /** A name and a colon that were read were within the budget. */
  lemma NameAffords(m: Machine, name: string, rest: string)
    requires m.p.state.HeaderFieldStart? && m.mark.Unmarked? && IsToken(name) && Run(m, name + ":" + rest).ctl.Next?
    ensures Affords(m.p, |name| + 1)
  {
    hide Run, IsToken, NameRead, ParsingHeader, Reads;
    if !Affords(m.p, |name| + 1) {
      LineStatesCount(m.p);
      var s := name + ":" + rest;
      var k := if m.p.nread < MAX_HEADER_SIZE then MAX_HEADER_SIZE - m.p.nread else 0;
      assert s == s[..k] + ([s[k]] + s[k + 1..]);
      RunConcat(m, s[..k], [s[k]] + s[k + 1..]);
      if k == 0 {
        assert s[..k] == "";
        RunEmpty(m);
        RunConcat(m, [s[k]], s[k + 1..]);
        OverBudget(m, s[k]);
      } else {
        assert s[..k] == name[..k];
        assert IsToken(name[..k]) by { PrefixToken(name, k); }
        ReadsFieldName(m, name[..k]);
        var m1 := Machine(NameCounted(m.p, name[..k]), Marked(Field, name[..k]), m.events);
        RunResult(m, name[..k]);
        NameInLine(m.p, name[..k]);
        LineStatesCount(m1.p);
        RunConcat(m1, [s[k]], s[k + 1..]);
        OverBudget(m1, s[k]);
      }
    }
  }

  lemma PrefixToken(name: string, k: nat)
    requires IsToken(name) && 0 < k <= |name|
    ensures IsToken(name[..k])
  {
    assert forall c | c in name[..k] :: c in name;
  }

  lemma NameInLine(p: Parser, name: string)
    requires IsToken(name)
    ensures NameCounted(p, name).state.HeaderField? && NameCounted(p, name).nread == p.nread + |name|
  {
    hide Tracked, NameRead, IsToken, SetsTransferEncoding;
    NameTracked(p, name);
  }

  /** The chunked coding is only recorded for a Transfer-Encoding line whose last element is `chunked`, blanks
      around it and letter case aside, whatever the line end. */
  lemma ChunkedIsLast(m: Machine, name: string, v: string, end: string)
    requires m.p.state.HeaderFieldStart? && m.mark.Unmarked? && !m.p.flags.chunked
    requires IsToken(name) && Folded(name) == TRANSFER_ENCODING && CR !in v && LF !in v && IsLineEnd(end)
    requires Run(m, name + ":" + v + end).ctl.Next?
    ensures var m' := Run(m, name + ":" + v + end).m;
            && Ready(m') && (Settle(m').p.flags.chunked ==> IsChunked(TrimRight(TrimLeft(LastElement(v)))))
  {
    hide Run, IsToken, NameRead, Ready, Settle, IsChunked, TrimLeft, TrimRight, LastElement, ListRead;
    assert name + ":" + (v + end) == name + ":" + v + end;
    NameAffords(m, name, v + end);
    CodingName(m.p, name);
    ReadsColon(m, name);
    var m1 := Machine(AfterColon(m.p, name), Unmarked, m.events + [Data(Field, name)]);
    RunConcat(m, name + ":", v + end);
    RunConcat(m1, v, end);
    StartsEmpty(m1);
    ReadsList(m1, v);
    ListLineEnd(Run(m1, v).m, v, end);
  }

  lemma StartsEmpty(m: Machine)
    requires m.p.headerState.TransferEncoding? && m.p.state.HeaderValueDiscardWs? && m.mark.Unmarked?
    ensures ValueSoFar(m, "", m.p.flags.chunked)
  {}
}
