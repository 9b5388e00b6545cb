/** Feeding one parser object with the fragments of a connection: what it comes to is what one call on
    all of them together comes to. */
module HttpFeed {
  import opened HttpTypes
  import opened HttpSwitch
  import opened HttpRun
  import opened HttpInvariant
  import opened HttpMarks
  import opened HttpExecute
  import opened HttpSplit

  // ---------------------------------------------------------------- leaving HTTP shows

  /** Between messages the upgrade field is not set; it is when the parser has left HTTP. */
  predicate Quiet(p: Parser) { Idle(p.state) ==> !p.upgrade }

  predicate QuietOut(o: Out) {
    if o.ctl.Exit? then Idle(o.p.state) && o.p.upgrade else o.ctl.Fail? || Quiet(o.p)
  }

  lemma LineQuiet(p: Parser, ch: char)
    requires InLine(p.state)
    ensures QuietOut(Switch(p, ch))
  {
    hide Token, Lower, IsHeaderChar;
    match p.state
    case HeaderFieldStart =>
    case HeaderField =>
    case HeaderValue =>
    case HeaderValueStart =>
    case HeaderValueDiscardWs =>
    case _ =>
  }

  lemma BodyQuiet(p: Parser, ch: char)
    requires InBody(p.state)
    ensures QuietOut(Switch(p, ch))
  {
    match p.state
    case HeadersAlmostDone =>
    case HeadersDone =>
    case MessageDone =>
    case BodyIdentity =>
    case _ =>
  }

  lemma RequestQuiet(p: Parser, ch: char)
    requires !InLine(p.state) && !InBody(p.state) && Quiet(p)
    ensures QuietOut(Switch(p, ch))
  {
    hide IsUrlChar, IsUserinfoChar, IsAlpha;
    match p.state
    case Dead =>
    case StartReq =>
    case ReqMethod =>
    case ReqSpacesBeforeUrl =>
    case _ =>
  }

  lemma SwitchQuiet(p: Parser, ch: char)
    requires Quiet(p)
    ensures QuietOut(Switch(p, ch))
  {
    hide Switch, QuietOut, Quiet;
    if InLine(p.state) { LineQuiet(p, ch); } else if InBody(p.state) { BodyQuiet(p, ch); } else { RequestQuiet(p, ch); }
  }

  predicate QuietEnd(ctl: Ctl, p: Parser) { if ctl.Exit? then Idle(p.state) && p.upgrade else ctl.Fail? || Quiet(p) }

  lemma {:induction false} PassesQuiet(m: Machine, ch: char)
    requires Quiet(m.p)
    ensures var h := Passes(m, ch); QuietEnd(h.ctl, h.m.p)
    decreases Rank(m.p.state)
  {
    hide Switch, Rank, Quiet;
    var o := Switch(m.p, ch);
    SwitchQuiet(m.p, ch);
    AgainDescends(m.p, ch);
    PerformAllKeepsFields(m.(p := o.p), o.acts, ch);
    if o.ctl.Again? { PassesQuiet(PerformAll(m.(p := o.p), o.acts, ch), ch); }
  }

  lemma {:induction false} RunQuiet(m: Machine, s: string)
    requires Quiet(m.p)
    ensures var r := Run(m, s); QuietEnd(r.ctl, r.m.p)
    decreases |s|
  {
    hide Passes, Switch;
    if s != "" {
      PassesQuiet(m.(p := Counted(m.p)), s[0]);
      var h := StepByte(m, s[0]);
      if h.ctl.Next? { RunQuiet(h.m, s[1..]); }
    }
  }

  /** After a call, the parser has left HTTP exactly if it is between messages with the upgrade field set. */
  lemma ExitShows(p: Parser, events: seq<Event>, data: string)
    requires ParserInv(p) && Quiet(p) && data != ""
    ensures var r := HttpRun.Execute(p, events, data);
            r.errno == OK ==> (r.exited <==> Idle(r.p.state) && r.p.upgrade) && (r.exited || Quiet(r.p))
  {
    hide Run, ParserInv, MachineInv;
    var m := Resume(p, events);
    assert m.p == p;
    RunQuiet(m, data);
    ResumeInv(p, events);
    RunStops(m, data);
  }

  // ---------------------------------------------------------------- fragments

  /** Call after call, until the fragments are used up, or there is an error, or the parser has left HTTP. */
  method Feed(parser: HttpParser, fragments: seq<string>) returns (consumed: nat)
    requires parser.errno == OK && ParserInv(parser.Fields()) && Quiet(parser.Fields())
    requires fragments != [] && forall f <- fragments :: f != "" && |f| <= MAX_BUFFER
    modifies parser
    ensures var r := HttpRun.Execute(old(parser.Fields()), old(parser.events), Concat(fragments));
            if parser.errno == OK then Same(Outcome(parser.Fields(), parser.events, consumed, OK, r.exited), r)
            else r.errno == HEADER_OVERFLOW || (r.errno == parser.errno && r.consumed == consumed)
  {
    hide Run, ParserInv, HttpRun.Execute, Idle, Quiet, Merge;
    ghost var p0, e0 := parser.Fields(), parser.events;
    AnySplit(p0, e0, fragments);
    consumed := 0;
    ghost var exited := false;
    assert fragments[0..] == fragments;
    var i := 0;
    while i < |fragments|
      invariant i <= |fragments| && parser.errno == OK && ParserInv(parser.Fields()) && Quiet(parser.Fields())
      invariant FeedAll(p0, e0, fragments) == Shift(FeedAll(parser.Fields(), parser.events, fragments[i..]), consumed)
    {
      var f := fragments[i];
      ghost var p, e, rest := parser.Fields(), parser.events, fragments[i..];
      assert rest[0] == f && rest[1..] == fragments[i + 1..];
      assert f in fragments;
      var n := parser.Execute(f);
      ExitShows(p, e, f);
      consumed := consumed + n;
      if parser.errno != OK { return; }
      if (parser.state.Dead? || parser.state.StartReq?) && parser.upgrade {
        assert Idle(parser.state) by { IdleStates(parser.state); }
        return;
      }
      assert !(Idle(parser.state) && parser.upgrade) by { IdleStates(parser.state); }
      assert n == |f| by { ConsumesAll(p, e, f); }
      i := i + 1;
    }
    assert fragments[i..] == [];
  }

  lemma IdleStates(s: State)
    ensures Idle(s) <==> s.Dead? || s.StartReq?
  {}
}
