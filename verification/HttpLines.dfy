/** Header lines, read by the byte-at-a-time machine: field names, and what is pending between two lines. */
module HttpLines {
  import opened HttpTypes
  import opened HttpSwitch
  import opened HttpRun
  import opened HttpInvariant
  import opened HttpScan
  import opened HttpReads
  import opened HttpNames

  // ---------------------------------------------------------------- between two header lines

  /** A header line is over when the next one starts: until then it could be continued. */
  predicate Ready(m: Machine) {
    && m.mark.Unmarked?
    && (m.p.state.HeaderFieldStart? || m.p.state.HeaderValueLws?
        || (m.p.state.HeaderValueDiscardLws? && !m.p.headerState.ContentLength?))
  }

  /** The machine with the line over: what it noted about the value is recorded, and the callback
      for an empty value is made. */
  function Settle(m: Machine): Machine {
    match m.p.state
    case HeaderValueLws =>
      m.(p := m.p.(state := HeaderFieldStart, flags := Recorded(m.p.flags, m.p.headerState)))
    case HeaderValueDiscardLws =>
      m.(p := m.p.(state := HeaderFieldStart, flags := Recorded(m.p.flags, m.p.headerState)),
         events := m.events + [Data(Value, "")])
    case _ => m
  }

  lemma SettlePasses(m: Machine, ch: char)
    requires Ready(m) && ch != ' ' && ch != '\t'
    ensures Passes(m, ch) == Passes(Settle(m), ch)
  {
    if m.p.state.HeaderValueDiscardLws? {
      var q := m.p.(state := HeaderFieldStart, flags := Recorded(m.p.flags, m.p.headerState));
      var acts := [MarkAt(Value), Flush(Value)];
      assert Switch(m.p, ch) == Out(q, acts, Again);
      var m1 := Perform(m.(p := q), acts[0], ch);
      assert acts[1..] == [Flush(Value)] && acts[1..][1..] == [];
      assert PerformAll(m1, acts[1..], ch) == Perform(m1, Flush(Value), ch);
      assert PerformAll(m.(p := q), acts, ch) == Settle(m);
    } else if m.p.state.HeaderValueLws? {
      assert Switch(m.p, ch) == Out(Settle(m).p, [], Again);
    }
  }

  lemma SettleRun(m: Machine, s: string)
    requires Ready(m) && s != "" && s[0] != ' ' && s[0] != '\t' && Affords(m.p, 1)
    ensures Run(m, s) == Run(Settle(m), s)
  {
    hide Passes, Recorded;
    SettlePasses(m.(p := Counted(m.p)), s[0]);
    assert Settle(m.(p := Counted(m.p))) == Settle(m).(p := Counted(Settle(m).p));
    RunCounts(m, s);
    RunCounts(Settle(m), s);
  }

  // ---------------------------------------------------------------- field names

  /** The parser after a field name, with its bytes counted. */
  function NameCounted(p: Parser, name: string): Parser
    requires IsToken(name)
  {
    NameRead(p, name).(nread := p.nread + |name|)
  }

  lemma FieldStartSwitch(p: Parser, ch: char)
    requires p.state.HeaderFieldStart? && Token(ch) != '\0' && ch != CR && ch != LF
    ensures Switch(Counted(p), ch) == Out(OnFieldStart(p, ch).p.(nread := p.nread + 1), [MarkAt(Field)], Next)
  {
    hide Token;
  }

  /** One more byte of a name. */
  lemma FieldNameByte(p: Parser, init: string, last: char)
    requires IsToken(init) && IsToken(init + [last])
    ensures var q := NameCounted(p, init);
            && ParsingHeader(q.state) && Switch(Counted(q), last) == Out(NameCounted(p, init + [last]), [], Next)
  {
    hide Switch, FieldByte, Token, OnFieldStart, SetsTransferEncoding, Tracked;
    var name := init + [last];
    assert name[..|name| - 1] == init && last in name;
    NameTracked(p, init);
    var q := NameCounted(p, init);
    FieldSwitch(Counted(q), last);
    FieldByteRebased(NameRead(p, init), p.nread + |name|, q.upgrade, last, Token(last));
  }

  lemma TokenInit(name: string)
    requires IsToken(name)
    ensures var k := |name| - 1;
            && name == name[..k] + [name[k]] && Token(name[k]) != '\0' && name[k] != CR && name[k] != LF
            && if k == 0 then name == [name[k]] else IsToken(name[..k])
  {
    var k := |name| - 1;
    assert name[k] in name;
    assert forall c | c in name[..k] :: c in name;
    LineEndsAreNoTokens();
  }

  lemma {:induction false} ReadsFieldName(m: Machine, name: string)
    requires m.p.state.HeaderFieldStart? && m.mark.Unmarked? && IsToken(name) && Affords(m.p, |name|)
    ensures Reads(m, name, Machine(NameCounted(m.p, name), Marked(Field, name), m.events))
    decreases |name|
  {
    hide Switch, Reads, FieldByte, Token, OnFieldStart, IsToken, ParsingHeader;
    TokenInit(name);
    var k := |name| - 1;
    var init, last := name[..k], name[k];
    var q := NameCounted(m.p, name);
    if k == 0 {
      FieldStartSwitch(m.p, last);
      assert ParsingHeader(HeaderFieldStart) by { FieldStartParsed(); }
      MarkByte(m, last, q, Field);
    } else {
      ReadsFieldName(m, init);
      var m1 := Machine(NameCounted(m.p, init), Marked(Field, init), m.events);
      FieldNameByte(m.p, init, last);
      PlainByte(m1, last, q);
      ReadsThen(m, init, m1, [last], Extended(m1.(p := q), last));
    }
  }

  lemma FieldStartParsed()
    ensures ParsingHeader(HeaderFieldStart)
  {}
}
