/** Runs of bytes that stay in one state: a field name, a header value, a slice of a body. These
    are the runs that `http_parser_execute` scans with loops of its own, counting the header bytes
    only when a scan ends; by then the byte-at-a-time machine may have run out of header budget. */
module HttpScan {
  import opened HttpTypes
  import opened HttpSwitch
  import opened HttpRun
  import opened HttpInvariant
  import opened HttpMarks

  /** `marks` holds the position of the machine's mark in `data`, `p` bytes being behind. */
  ghost predicate MarkedAt(mark: Mark, data: string, p: nat, marks: map<Kind, nat>) {
    && p <= |data|
    && match mark
       case Unmarked => marks == map[]
       case Marked(k, t) => marks.Keys == {k} && marks[k] <= p && data[marks[k]..p] == t
  }

  lemma MarkMoves(mark: Mark, data: string, p: nat, marks: map<Kind, nat>)
    requires MarkedAt(mark, data, p, marks) && p < |data|
    ensures mark.Marked? ==> MarkedAt(Marked(mark.kind, mark.text + [data[p]]), data, p + 1, marks)
  {
    if mark.Marked? {
      assert data[marks[mark.kind]..p + 1] == data[marks[mark.kind]..p] + [data[p]];
    }
  }

  lemma RunAt(m: Machine, data: string, p: nat)
    requires p < |data|
    ensures var h := StepByte(m, data[p]);
            Run(m, data[p..]) == match h.ctl
                                 case Next => Later(Run(h.m, data[p + 1..]), 1)
                                 case Exit => Result(h.m, 1, Exit)
                                 case Fail(e) => Result(h.m, 0, Fail(e))
  {
    hide StepByte;
    assert data[p..][0] == data[p] && data[p..][1..] == data[p + 1..];
  }

  // ---------------------------------------------------------------- header scans

  /** The machine `m` was about to read byte `p0`; the scan is at `p` and the parser fields are `f`
      except for `nread`. Either the machine has run out of budget, or it is at `p` too, as `g`. */
  ghost predicate Scanned(m: Machine, data: string, p0: nat, p: nat, f: Parser, g: Machine, over: bool)
  {
    && p0 <= p <= |data|
    && if over then Run(m, data[p0..]).ctl == Fail(HEADER_OVERFLOW) && m.p.nread + (p - p0) > MAX_HEADER_SIZE
       else
         && Run(m, data[p0..]) == Later(Run(g, data[p..]), p - p0)
         && MachineInv(g) && g.mark.Marked? && g.events == m.events
         && g.p == f.(nread := m.p.nread + (p - p0))
  }

  /** Scanning as many bytes as there is budget for uses it up. */
  lemma ScanExhausted(m: Machine, data: string, p0: nat, p: nat, f: Parser, g: Machine, over: bool)
    requires Scanned(m, data, p0, p, f, g, over) && p - p0 >= MAX_HEADER_SIZE
    ensures over || g.p.nread >= MAX_HEADER_SIZE
  {}

  lemma ScanStart(m: Machine, data: string, p0: nat, p: nat, f: Parser, g: Machine, over: bool)
    requires Scanned(m, data, p0, p, f, g, over)
    ensures p0 <= p
  {}

  lemma ScanStarts(m: Machine, data: string, p0: nat, f: Parser)
    requires p0 <= |data| && MachineInv(m) && m.mark.Marked? && f == Counted(m.p)
    ensures Scanned(m, data, p0, p0, f, m, false)
  {
    hide MachineInv;
  }

  /** The machine after a byte that leaves the marks alone and the fields at `q`. */
  function Stepped(g: Machine, q: Parser, ch: char): Machine
    requires g.mark.Marked?
  {
    Machine(q.(nread := g.p.nread + 1), Marked(g.mark.kind, g.mark.text + [ch]), g.events)
  }

  lemma StayStep(g: Machine, ch: char, q: Parser)
    requires g.mark.Marked? && ParsingHeader(g.p.state) && g.p.nread < MAX_HEADER_SIZE
    requires Switch(Counted(g.p), ch) == Stay(q.(nread := g.p.nread + 1))
    ensures StepByte(g, ch) == Handled(Stepped(g, q, ch), Next)
  {
    hide Switch;
  }

  lemma OverflowAt(m: Machine, data: string, p: nat)
    requires p < |data| && ParsingHeader(m.p.state) && m.p.nread + 1 > MAX_HEADER_SIZE
    ensures Run(m, data[p..]) == Result(m, 0, Fail(HEADER_OVERFLOW))
  {
    hide Passes;
    RunAt(m, data, p);
  }

  lemma {:induction false} ScanAdvances(m: Machine, data: string, p0: nat, p: nat, f: Parser, q: Parser, g: Machine, over: bool)
    returns (g': Machine, over': bool)
    requires Scanned(m, data, p0, p, f, g, over) && p < |data| && ParsingHeader(f.state)
    requires !over && g.p.nread < MAX_HEADER_SIZE ==> Switch(Counted(g.p), data[p]) == Stay(q.(nread := g.p.nread + 1))
    ensures Scanned(m, data, p0, p + 1, q, g', over')
    ensures !over' ==> !over && g.p.nread < MAX_HEADER_SIZE && g' == Stepped(g, q, data[p])
  {
    hide Switch, StepByte, MachineInv;
    if over {
      return g, true;
    }
    if g.p.nread >= MAX_HEADER_SIZE {
      assert g.p.nread <= MAX_HEADER_SIZE by { InvBudget(g); }
      OverflowAt(g, data, p);
      return g, true;
    }
    StayStep(g, data[p], q);
    RunAt(g, data, p);
    StepKeepsInv(g, data[p]);
    return Stepped(g, q, data[p]), false;
  }

  lemma InvBudget(g: Machine)
    requires MachineInv(g)
    ensures g.p.nread <= MAX_HEADER_SIZE
  {}

  lemma InvMarks(g: Machine)
    requires MachineInv(g)
    ensures g.p.state.HeaderField? ==>
              g.mark.Marked? && g.mark.kind == Field && LineInv(g.p) && NameState(g.p.headerState, g.p.index) && g.p.index < 32
    ensures g.p.state.HeaderValue? ==>
              g.mark.Marked? && g.mark.kind == Value && LineInv(g.p) && ValueState(g.p.headerState, g.p.index) && g.p.index < 32
  {}

  /** Neither a matcher nor the rest of header reading looks at the header budget, or at the
      upgrade bit. */
  function Rebased(p: Parser, n: nat, u: bool): Parser { p.(nread := n, upgrade := u) }

  lemma MatchRebased(p: Parser, n: nat, u: bool, c: char)
    ensures forall l, h, k :: Match(Rebased(p, n, u), l, c, h, k) == Rebased(Match(p, l, c, h, k), n, u)
  {
    hide At;
  }

  lemma FieldByteRebased(p: Parser, n: nat, u: bool, ch: char, c: char)
    ensures FieldByte(Rebased(p, n, u), ch, c) == Rebased(FieldByte(p, ch, c), n, u)
  {
    hide Match;
    MatchRebased(p, n, u, c);
    match p.headerState
    case HC =>
    case HCO =>
    case HCON =>
    case MatchingTransferEncoding =>
    case _ =>
  }

  lemma ListRebased(p: Parser, n: nat, u: bool, ch: char, other: HeaderState)
    ensures TokenStart(Rebased(p, n, u), ch, other) == Rebased(TokenStart(p, ch, other), n, u)
    ensures AfterConnToken(Rebased(p, n, u), ch) == Rebased(AfterConnToken(p, ch), n, u)
  {
    hide Token, Recorded;
  }

  function RebasedValue(r: ValueOut, n: nat, u: bool): ValueOut {
    if r.ValueOk? then ValueOk(Rebased(r.p, n, u)) else r
  }

  lemma LengthRebased(p: Parser, n: nat, u: bool, ch: char)
    ensures ContentLengthByte(Rebased(p, n, u), ch) == RebasedValue(ContentLengthByte(p, ch), n, u)
  {
    hide AddDecimal;
  }

  lemma ConnByteRebased(p: Parser, n: nat, u: bool, ch: char)
    requires ConnState(p.headerState)
    ensures ValueByte(Rebased(p, n, u), ch) == RebasedValue(ValueByte(p, ch), n, u)
  {
    hide Match, Token, Lower, IsHeaderChar, TokenStart, AfterConnToken, ContentLengthByte;
    MatchRebased(p, n, u, Lower(ch));
    ListRebased(p, n, u, Lower(ch), ConnToken);
    ListRebased(p, n, u, ch, ConnToken);
  }

  lemma ValueByteRebased(p: Parser, n: nat, u: bool, ch: char)
    ensures ValueByte(Rebased(p, n, u), ch) == RebasedValue(ValueByte(p, ch), n, u)
  {
    hide Match, Token, Lower, IsHeaderChar, TokenStart, AfterConnToken, ContentLengthByte;
    if ConnState(p.headerState) {
      ConnByteRebased(p, n, u, ch);
    } else {
      MatchRebased(p, n, u, Lower(ch));
      ListRebased(p, n, u, Lower(ch), TeToken);
      LengthRebased(p, n, u, ch);
    }
  }

  lemma FieldSwitch(p: Parser, ch: char)
    requires p.state.HeaderField? && Token(ch) != '\0'
    ensures Switch(p, ch) == Stay(FieldByte(p, ch, Token(ch)))
  {
    hide FieldByte, Token;
  }

  lemma ValueSwitch(p: Parser, ch: char)
    requires p.state.HeaderValue? && ch != CR && ch != LF
    ensures Switch(p, ch) == match ValueByte(p, ch) case ValueOk(q) => Stay(q) case ValueBad(e) => Err(p, e)
  {
    hide ValueByte;
  }

  lemma FieldScanAdvances(m: Machine, data: string, p0: nat, p: nat, f: Parser, g: Machine, over: bool, marks: map<Kind, nat>)
    returns (g': Machine, over': bool)
    requires Scanned(m, data, p0, p, f, g, over) && p < |data| && f.state.HeaderField? && Token(data[p]) != '\0'
    requires !over ==> MarkedAt(g.mark, data, p, marks)
    ensures Scanned(m, data, p0, p + 1, FieldByte(f, data[p], Token(data[p])), g', over')
    ensures !over' ==> MarkedAt(g'.mark, data, p + 1, marks)
  {
    hide FieldByte, MachineInv, Token, Switch, Run;
    var q := FieldByte(f, data[p], Token(data[p]));
    if !over {
      FieldByteRebased(f, g.p.nread + 1, f.upgrade, data[p], Token(data[p]));
      assert Counted(g.p) == Rebased(f, g.p.nread + 1, f.upgrade);
      FieldSwitch(Counted(g.p), data[p]);
      MarkMoves(g.mark, data, p, marks);
    }
    g', over' := ScanAdvances(m, data, p0, p, f, q, g, over);
  }

  lemma ValueScanAdvances(m: Machine, data: string, p0: nat, p: nat, f: Parser, g: Machine, over: bool, marks: map<Kind, nat>)
    returns (g': Machine, over': bool)
    requires Scanned(m, data, p0, p, f, g, over) && p < |data| && f.state.HeaderValue?
    requires data[p] != CR && data[p] != LF && ValueByte(f, data[p]).ValueOk?
    requires !over ==> MarkedAt(g.mark, data, p, marks)
    ensures Scanned(m, data, p0, p + 1, ValueByte(f, data[p]).p, g', over')
    ensures !over' ==> MarkedAt(g'.mark, data, p + 1, marks)
  {
    hide ValueByte, MachineInv, Switch, Run;
    var q := ValueByte(f, data[p]).p;
    if !over {
      ValueByteRebased(f, g.p.nread + 1, f.upgrade, data[p]);
      assert Counted(g.p) == Rebased(f, g.p.nread + 1, f.upgrade);
      ValueSwitch(Counted(g.p), data[p]);
      MarkMoves(g.mark, data, p, marks);
    }
    g', over' := ScanAdvances(m, data, p0, p, f, q, g, over);
  }

  /** A machine with budget left steps on the byte that ends a scan. */
  lemma ScanEnds(m: Machine, data: string, p0: nat, p: nat, f: Parser, g: Machine, over: bool)
    requires Scanned(m, data, p0, p, f, g, over) && ParsingHeader(f.state)
    requires m.p.nread + (p - p0) + 1 <= MAX_HEADER_SIZE && p < |data|
    ensures Run(m, data[p0..]) == Later(MidByte(g.(p := Counted(g.p)), data[p..]), p - p0)
    ensures Counted(g.p) == f.(nread := m.p.nread + (p - p0) + 1)
    ensures StateInv(Counted(g.p)) && MarksOk(g.(p := Counted(g.p)))
  {
    hide StateInv, MarksOk, Passes;
    RunCounts(g, data[p..]);
    CountingKeepsInv(g);
  }

  /** The fast path for a name that is already known to be of no interest. */
  lemma GeneralName(f: Parser, ch: char, c: char)
    requires f.headerState.General?
    ensures FieldByte(f, ch, c) == f
  {}

  lemma GeneralValue(f: Parser, ch: char)
    requires f.headerState.General?
    ensures ValueByte(f, ch) == if IsHeaderChar(ch) then ValueOk(f) else ValueBad(INVALID_HEADER_TOKEN)
  {}

  lemma ValueSwitchCr(p: Parser)
    requires p.state.HeaderValue?
    ensures Switch(p, CR) == Out(p.(state := HeaderAlmostDone), [Flush(Value)], Next)
  {}

  /** CR ends a value: the callback is made and the line is almost done. */
  function Ended(g: Machine): Machine
    requires g.mark.Marked?
  {
    Machine(Counted(g.p).(state := HeaderAlmostDone), Unmarked, g.events + [Data(Value, g.mark.text)])
  }

  lemma ValueEnds(g: Machine, data: string, p: nat)
    requires p < |data| && data[p] == CR && g.p.state.HeaderValue? && g.mark.Marked? && g.mark.kind == Value
    requires MachineInv(g) && g.p.nread < MAX_HEADER_SIZE
    ensures Run(g, data[p..]) == Later(Run(Ended(g), data[p + 1..]), 1)
    ensures MachineInv(Ended(g))
  {
    hide Switch, MachineInv;
    var q := Counted(g.p);
    ValueSwitchCr(q);
    var m' := Perform(g.(p := q.(state := HeaderAlmostDone)), Flush(Value), CR);
    assert PerformAll(g.(p := q.(state := HeaderAlmostDone)), [Flush(Value)], CR) == m' by {
      assert [Flush(Value)][1..] == [];
    }
    assert Passes(g.(p := q), CR) == Handled(m', Next);
    assert StepByte(g, CR) == Handled(Ended(g), Next);
    StepKeepsInv(g, CR);
    RunAt(g, data, p);
  }

  lemma FailStep(g: Machine, ch: char, e: Errno)
    requires ParsingHeader(g.p.state) && g.p.nread < MAX_HEADER_SIZE
    requires Switch(Counted(g.p), ch) == Err(Counted(g.p), e)
    ensures StepByte(g, ch) == Handled(g.(p := Counted(g.p)), Fail(e))
  {
    hide Switch;
  }

  /** A byte that is not allowed stops the machine where it stops the scan. */
  lemma ValueFails(m: Machine, data: string, p0: nat, p: nat, f: Parser, g: Machine, over: bool, bad: Errno)
    requires Scanned(m, data, p0, p, f, g, over) && p < |data| && f.state.HeaderValue?
    requires data[p] != CR && data[p] != LF && ValueByte(f, data[p]) == ValueBad(bad)
    ensures var r := Run(m, data[p0..]);
            r.ctl == Fail(HEADER_OVERFLOW) || (r.ctl == Fail(bad) && r.consumed == p - p0 && r.m.events == m.events)
  {
    hide MachineInv, ValueByte, Switch, StepByte, Run;
    if !over {
      if g.p.nread + 1 > MAX_HEADER_SIZE {
        OverflowAt(g, data, p);
      } else {
        ValueByteRebased(f, g.p.nread + 1, f.upgrade, data[p]);
        assert Counted(g.p) == Rebased(f, g.p.nread + 1, f.upgrade);
        ValueSwitch(Counted(g.p), data[p]);
        FailStep(g, data[p], bad);
        RunAt(g, data, p);
      }
    }
  }

  // ---------------------------------------------------------------- body slices

  predicate ReadsBody(m: Machine) {
    && (m.p.state.BodyIdentity? || m.p.state.ChunkData?)
    && HasLength(m.p) && (m.mark.Marked? ==> m.mark.kind == Body)
  }

  function Pending(m: Mark): string { if m.Marked? then m.text else "" }

  /** The machine `t` further into a body. */
  function Sliced(m: Machine, t: string): Machine
    requires |t| <= m.p.contentLength
  {
    Machine(m.p.(contentLength := m.p.contentLength - |t|), Marked(Body, Pending(m.mark) + t), m.events)
  }

  lemma BodySwitch(p: Parser, ch: char)
    requires (p.state.BodyIdentity? || p.state.ChunkData?) && HasLength(p)
    ensures Switch(p, ch) ==
            var q := p.(contentLength := p.contentLength - 1);
            if q.contentLength != 0 then Out(q, [MarkAt(Body)], Next)
            else if p.state.ChunkData? then Out(q.(state := ChunkDataAlmostDone), [MarkAt(Body)], Next)
            else Out(q.(state := MessageDone), [MarkAt(Body), FlushThrough(Body)], Again)
  {}

  lemma MarkAtBody(m: Machine, q: Parser, ch: char)
    requires m.mark.Marked? ==> m.mark.kind == Body
    ensures PerformAll(m.(p := q), [MarkAt(Body)], ch) == Machine(q, Marked(Body, Pending(m.mark)), m.events)
  {
    assert [MarkAt(Body)][1..] == [];
  }

  /** One body byte that does not end a Content-Length body. */
  lemma BodyStep(m: Machine, ch: char)
    requires ReadsBody(m) && (m.p.contentLength > 1 || m.p.state.ChunkData?)
    ensures var s := Sliced(m, [ch]);
            StepByte(m, ch) ==
            Handled(if m.p.contentLength > 1 then s else s.(p := s.p.(state := ChunkDataAlmostDone)), Next)
  {
    hide Switch, PerformAll;
    BodySwitch(m.p, ch);
    MarkAtBody(m, Switch(m.p, ch).p, ch);
    assert Counted(m.p) == m.p;
  }

  lemma {:induction false} BodyRun(m: Machine, data: string, p: nat, k: nat)
    requires ReadsBody(m) && MachineInv(m) && 1 <= k < m.p.contentLength && p + k <= |data|
    ensures Run(m, data[p..]) == Later(Run(Sliced(m, data[p..p + k]), data[p + k..]), k)
    ensures MachineInv(Sliced(m, data[p..p + k]))
    decreases k
  {
    hide MachineInv, StepByte, Run;
    if k == 1 {
      BodyStep(m, data[p]);
      StepKeepsInv(m, data[p]);
      assert data[p..p + 1] == [data[p]];
      RunAt(m, data, p);
    } else {
      BodyRun(m, data, p, k - 1);
      var g := Sliced(m, data[p..p + k - 1]);
      BodyStep(g, data[p + k - 1]);
      StepKeepsInv(g, data[p + k - 1]);
      RunAt(g, data, p + k - 1);
      var a, b := data[p..p + k - 1], [data[p + k - 1]];
      assert data[p..p + k] == a + b;
      assert Pending(m.mark) + a + b == Pending(m.mark) + (a + b);
      assert Sliced(g, [data[p + k - 1]]) == Sliced(m, data[p..p + k]);
    }
  }

  /** The machine at the last of `k` bytes of a body slice. */
  lemma BodyReaches(m: Machine, data: string, p: nat, k: nat) returns (g: Machine)
    requires ReadsBody(m) && MachineInv(m) && 1 <= k <= m.p.contentLength && p + k <= |data|
    ensures Run(m, data[p..]) == Later(Run(g, data[p + k - 1..]), k - 1)
    ensures ReadsBody(g) && MachineInv(g) && g.p == m.p.(contentLength := m.p.contentLength - (k - 1)) && g.events == m.events
    ensures Pending(g.mark) == Pending(m.mark) + data[p..p + k - 1]
  {
    hide MachineInv, Run;
    if k == 1 {
      g := m;
    } else {
      BodyRun(m, data, p, k - 1);
      g := Sliced(m, data[p..p + k - 1]);
    }
  }

  /** The last byte of a Content-Length body: the callback includes it, and it is read again. */
  lemma BodyEnds(g: Machine, s: string)
    requires ReadsBody(g) && g.p.state.BodyIdentity? && g.p.contentLength == 1 && s != ""
    ensures Run(g, s) ==
            MidByte(Machine(g.p.(contentLength := 0, state := MessageDone), Unmarked, g.events + [Data(Body, Pending(g.mark) + [s[0]])]), s)
  {
    hide Switch, Run;
    var q := g.p.(contentLength := 0, state := MessageDone);
    BodySwitch(g.p, s[0]);
    RunCounts(g, s);
    assert g.(p := Counted(g.p)) == g;
    var acts := [MarkAt(Body), FlushThrough(Body)];
    var m1 := Perform(g.(p := q), acts[0], s[0]);
    var m2 := Perform(m1, acts[1], s[0]);
    assert acts[1..] == [FlushThrough(Body)] && acts[1..][1..] == [];
    assert PerformAll(m1, acts[1..], s[0]) == m2;
    assert PerformAll(g.(p := q), acts, s[0]) == m2;
    assert Passes(g, s[0]) == Passes(m2, s[0]);
  }

  lemma InvBody(m: Machine)
    requires MachineInv(m) && (m.p.state.BodyIdentity? || m.p.state.ChunkData?)
    ensures ReadsBody(m) && (m.p.state.ChunkData? ==> m.p.flags.chunked)
  {}

  /** A slice of `k` bytes after which the message is not complete. */
  lemma SliceStays(m: Machine, data: string, p: nat, k: nat) returns (g': Machine)
    requires ReadsBody(m) && MachineInv(m) && 1 <= k <= m.p.contentLength && p + k <= |data|
    requires k < m.p.contentLength || m.p.state.ChunkData?
    ensures Run(m, data[p..]) == Later(Run(g', data[p + k..]), k) && MachineInv(g')
    ensures g' == Machine(m.p.(contentLength := m.p.contentLength - k,
                               state := if k == m.p.contentLength then ChunkDataAlmostDone else m.p.state),
                          Marked(Body, Pending(m.mark) + data[p..p + k]), m.events)
  {
    hide MachineInv, StepByte, Run, ReadsBody;
    var g := BodyReaches(m, data, p, k);
    var last := p + k - 1;
    assert g.p.contentLength >= 1 && (g.p.contentLength > 1 || g.p.state.ChunkData?);
    BodyStep(g, data[last]);
    StepKeepsInv(g, data[last]);
    RunAt(g, data, last);
    SliceText(m, data, p, k);
    g' := StepByte(g, data[last]).m;
    assert g'.mark == Marked(Body, Pending(m.mark) + data[p..p + k]);
  }

  lemma SliceText(m: Machine, data: string, p: nat, k: nat)
    requires 1 <= k && p + k <= |data|
    ensures Pending(m.mark) + data[p..p + k - 1] + [data[p + k - 1]] == Pending(m.mark) + data[p..p + k]
  {
    assert data[p..p + k] == data[p..p + k - 1] + [data[p + k - 1]];
  }

  /** The slice that completes a Content-Length body. */
  lemma SliceEnds(m: Machine, data: string, p: nat, k: nat) returns (g': Machine)
    requires ReadsBody(m) && MachineInv(m) && m.p.state.BodyIdentity? && 1 <= k == m.p.contentLength && p + k <= |data|
    ensures Run(m, data[p..]) == Later(MidByte(g', data[p + k - 1..]), k - 1)
    ensures g' == Machine(m.p.(contentLength := 0, state := MessageDone), Unmarked,
                          m.events + [Data(Body, Pending(m.mark) + data[p..p + k])])
    ensures StateInv(g'.p) && MarksOk(g') && g'.p.nread <= MAX_HEADER_SIZE
  {
    hide MachineInv, Run, MidByte, StateInv, MarksOk;
    var g := BodyReaches(m, data, p, k);
    BodyEnds(g, data[p + k - 1..]);
    SliceText(m, data, p, k);
    g' := Machine(m.p.(contentLength := 0, state := MessageDone), Unmarked,
                  m.events + [Data(Body, Pending(m.mark) + data[p..p + k])]);
    EndedInv(g, g');
  }

  lemma EndedInv(g: Machine, m': Machine)
    requires MachineInv(g) && g.p.state.BodyIdentity?
    requires m'.p == g.p.(contentLength := 0, state := MessageDone) && m'.mark.Unmarked?
    ensures StateInv(m'.p) && MarksOk(m') && m'.p.nread <= MAX_HEADER_SIZE
  {}

  /** The bytes under the body mark, where the mark was or is set at `p0`. */
  lemma BodyText(mark: Mark, data: string, p0: nat, p: nat, marks0: map<Kind, nat>, marks: map<Kind, nat>)
    requires p0 <= p <= |data| && MarkedAt(mark, data, p0, marks0) && (mark.Marked? ==> mark.kind == Body)
    requires marks == if Body in marks0 then marks0 else marks0[Body := p0]
    ensures MarkedAt(Marked(Body, Pending(mark) + data[p0..p]), data, p, marks)
    ensures Body in marks && marks[Body] <= p && data[marks[Body]..p] == Pending(mark) + data[p0..p]
  {
    if mark.Marked? {
      assert data[marks[Body]..p] == data[marks[Body]..p0] + data[p0..p];
    }
  }

  lemma NothingMarked(data: string, p: nat)
    requires p <= |data|
    ensures MarkedAt(Unmarked, data, p, map[])
  {}

  // ---------------------------------------------------------------- one pass

  /** What one pass of the switch does for a machine in the middle of byte `p`. */
  lemma PassResolves(m: Machine, data: string, p0: nat, p: nat, g: Machine)
    requires p0 <= p < |data| && Run(m, data[p0..]) == Later(MidByte(g, data[p..]), p - p0)
    requires StateInv(g.p) && MarksOk(g) && g.p.nread <= MAX_HEADER_SIZE
    ensures var o := Switch(g.p, data[p]);
            var g' := PerformAll(g.(p := o.p), o.acts, data[p]);
            match o.ctl
            case Next =>
              && Run(m, data[p0..]) == Later(Run(Extended(g', data[p]), data[p + 1..]), p + 1 - p0)
              && MachineInv(Extended(g', data[p]))
            case Again =>
              && Run(m, data[p0..]) == Later(MidByte(g', data[p..]), p - p0)
              && StateInv(g'.p) && MarksOk(g') && g'.p.nread <= MAX_HEADER_SIZE && !g'.p.state.ChunkSizeStart?
              && Rank(g'.p.state) < Rank(g.p.state)
            case Exit => Run(m, data[p0..]) == Result(g', p + 1 - p0, Exit) && MachineInv(g')
            case Fail(e) => Run(m, data[p0..]) == Result(g', p - p0, Fail(e)) && e != OK
  {
    hide Switch, StateInv, MarksOk, Run, Rank;
    var o := Switch(g.p, data[p]);
    var g' := PerformAll(g.(p := o.p), o.acts, data[p]);
    assert data[p..][1..] == data[p + 1..];
    AgainDescends(g.p, data[p]);
    SwitchOrderly(g.p, data[p]);
    PassesKeepInv(g, data[p]);
    PerformAllKeepsFields(g.(p := o.p), o.acts, data[p]);
    assert Passes(g, data[p]) == if o.ctl.Again? then Passes(g', data[p]) else Handled(g', o.ctl);
    if o.ctl.Again? {
      SwitchKeepsInv(g.p, data[p]);
      PerformKeepsMarks(g, o.p, o.acts, data[p]);
    } else if o.ctl.Next? {
      ExtendKeepsInv(g', data[p]);
    }
  }

  lemma ExtendKeepsInv(g: Machine, ch: char)
    requires MachineInv(g)
    ensures MachineInv(Extended(g, ch))
  {
    hide StateInv;
  }

  lemma ExtendedMark(g: Machine, data: string, p: nat, marks: map<Kind, nat>)
    requires MarkedAt(g.mark, data, p, marks) && p < |data|
    ensures MarkedAt(Extended(g, data[p]).mark, data, p + 1, marks)
    ensures Extended(g, data[p]).p == g.p && Extended(g, data[p]).events == g.events
  {
    MarkMoves(g.mark, data, p, marks);
  }

  /** A machine with budget left, once its next byte has been counted. */
  lemma CountedInv(m: Machine, data: string, p: nat)
    requires MachineInv(m) && p < |data| && (ParsingHeader(m.p.state) ==> m.p.nread < MAX_HEADER_SIZE)
    ensures var g := m.(p := Counted(m.p));
            && Run(m, data[p..]) == MidByte(g, data[p..])
            && StateInv(g.p) && MarksOk(g) && g.p.nread <= MAX_HEADER_SIZE
            && (g.p.state.ChunkSizeStart? ==> g.p.nread == 1)
  {
    hide Passes, StateInv, MarksOk;
    RunCounts(m, data[p..]);
    CountingKeepsInv(m);
  }
}
