/** `http_parser_execute` as the code runs it: fields updated in place, marks as positions in the
    buffer, header bytes scanned in runs and body bytes skipped in one go. Each method is proved
    to do what the byte-at-a-time machine of HttpRun does. */
module HttpExecute {
  import opened Numbers
  import opened HttpTypes
  import opened HttpSwitch
  import opened HttpRun
  import opened HttpInvariant
  import opened HttpMarks
  import opened HttpScan

  /** Longest buffer for which the 32-bit `nread` cannot wrap around. */
  const MAX_BUFFER := 0xFFFF_FFFF - MAX_HEADER_SIZE

  class HttpParser {
    var state: State
    var headerState: HeaderState
    var index: nat
    var flags: Flags
    var nread: nat
    var contentLength: nat
    var major: nat
    var minor: nat
    var verb: Method
    var upgrade: bool
    var errno: Errno
    var events: seq<Event>     // the callbacks made, in order

    function Fields(): Parser
      reads this
    {
      Parser(state, headerState, index, flags, nread, contentLength, major, minor, verb, upgrade)
    }

    constructor ()
      ensures Fields() == INITIAL && errno == OK && events == []
    {
      state, headerState, index, flags, nread := StartReq, General, 0, NO_FLAGS, 0;
      contentLength, major, minor, verb, upgrade := 0, 0, 0, DELETE, false;
      errno, events := OK, [];
    }

    method Store(q: Parser)
      modifies this
      ensures Fields() == q && errno == old(errno) && events == old(events)
    {
      state, headerState, index, flags, nread := q.state, q.headerState, q.index, q.flags, q.nread;
      contentLength, major, minor, verb, upgrade := q.contentLength, q.major, q.minor, q.verb, q.upgrade;
    }

    /** The object and the live marks are in the machine's configuration, with `p` bytes behind. */
    ghost predicate Tracks(m: Machine, data: string, p: nat, marks: map<Kind, nat>)
      reads this
    {
      && Fields() == m.p && events == m.events
      && MarkedAt(m.mark, data, p, marks)
    }

    /** What handling the bytes from `p0` on has come to at `p`, seen from the machine `m` that was
        about to read byte `p0`. An error is the machine's own, or the machine ran out of header
        budget on the way. */
    ghost predicate Resolved(m: Machine, data: string, p0: nat, p: nat, ctl: Ctl, m': Machine, marks: map<Kind, nat>)
      requires p0 <= p < |data|
      reads this
    {
      var r := Run(m, data[p0..]);
      match ctl
      case Next =>
        && r == Later(Run(m', data[p + 1..]), p + 1 - p0)
        && Tracks(m', data, p + 1, marks) && MachineInv(m') && errno == OK
      case Again =>
        && r == Later(MidByte(m', data[p..]), p - p0)
        && Tracks(m', data, p, marks) && errno == OK
        && StateInv(m'.p) && MarksOk(m') && m'.p.nread <= MAX_HEADER_SIZE
        && (m'.p.state.ChunkSizeStart? ==> m'.p.nread == 1)
      case Exit => r == Result(m', p + 1 - p0, Exit) && Fields() == m'.p && events == m'.events && MachineInv(m') && errno == OK
      case Fail(e) =>
        && errno == e && e != OK
        && (r.ctl == Fail(HEADER_OVERFLOW) || (r.ctl == Fail(e) && r.consumed == p - p0 && r.m.events == events))
    }

    /** MARK, CALLBACK_DATA and CALLBACK_NOTIFY at position `p`. */
    method PerformActs(acts: seq<Act>, data: string, p: nat, marks0: map<Kind, nat>, ghost m: Machine)
      returns (marks: map<Kind, nat>)
      requires p < |data| && MarkedAt(m.mark, data, p, marks0) && events == m.events
      requires OneMark(m, acts, data[p])
      modifies this`events
      ensures MarkedAt(PerformAll(m, acts, data[p]).mark, data, p, marks)
      ensures events == PerformAll(m, acts, data[p]).events
    {
      marks := marks0;
      ghost var now := m;
      var i := 0;
      while i < |acts|
        invariant i <= |acts|
        invariant PerformAll(m, acts, data[p]) == PerformAll(now, acts[i..], data[p])
        invariant OneMark(now, acts[i..], data[p])
        invariant MarkedAt(now.mark, data, p, marks) && events == now.events
      {
        assert acts[i..][0] == acts[i] && acts[i..][1..] == acts[i + 1..];
        match acts[i] {
          case MarkAt(k) =>
            if k !in marks { marks := marks[k := p]; }
          case Flush(k) =>
            if k in marks {
              events := events + [Data(k, data[marks[k]..p])];
              marks := marks - {k};
            }
          case FlushThrough(k) =>
            if k in marks {
              assert data[marks[k]..p + 1] == data[marks[k]..p] + [data[p]];
              events := events + [Data(k, data[marks[k]..p + 1])];
              marks := marks - {k};
            }
          case Notify(e) => events := events + [e];
        }
        now := Perform(now, acts[i], data[p]);
        i := i + 1;
      }
      assert acts[i..] == [];
    }

    /** One pass of the switch on byte `p`, with the assertions of the code. */
    method Pass(data: string, p: nat, marks0: map<Kind, nat>, ghost m: Machine)
      returns (marks: map<Kind, nat>, ctl: Ctl, ghost m': Machine)
      requires p < |data| && Tracks(m, data, p, marks0) && errno == OK
      requires StateInv(m.p) && MarksOk(m) && m.p.nread <= MAX_HEADER_SIZE
      requires m.p.state.ChunkSizeStart? ==> m.p.nread == 1
      modifies this
      ensures var o := Switch(m.p, data[p]);
              ctl == o.ctl && m' == PerformAll(m.(p := o.p), o.acts, data[p])
      ensures Tracks(m', data, p, marks)
      ensures errno == if ctl.Fail? then ctl.errno else OK
    {
      hide Switch;
      assert state.ChunkSizeStart? ==> nread == 1;
      assert InChunk(state) ==> flags.chunked;
      assert state.BodyIdentity? || state.ChunkData? ==> contentLength != 0 && contentLength != NO_LENGTH;
      assert state.ChunkDataAlmostDone? ==> contentLength == 0;
      var o := Switch(Fields(), data[p]);
      SwitchOrderly(m.p, data[p]);
      if o.ctl.Fail? {
        assert OneMark(m.(p := o.p), o.acts, data[p]);
      } else {
        PerformKeepsMarks(m, o.p, o.acts, data[p]);
      }
      PerformAllKeepsFields(m.(p := o.p), o.acts, data[p]);
      Store(o.p);
      marks := PerformActs(o.acts, data, p, marks0, m.(p := o.p));
      ctl, m' := o.ctl, PerformAll(m.(p := o.p), o.acts, data[p]);
      if o.ctl.Fail? { errno := o.ctl.errno; }
    }

    /** The loop of `case s_header_field`, with its fast path for names of no interest. */
    method SkipName(data: string, p0: nat, ghost marks: map<Kind, nat>, ghost m: Machine)
      returns (p: nat, ghost g: Machine, ghost over: bool)
      requires p0 < |data| && state.HeaderField? && MachineInv(m) && Tracks(m.(p := Counted(m.p)), data, p0, marks)
      modifies this
      ensures p0 <= p <= |data| && (p == |data| || Token(data[p]) == '\0')
      ensures Scanned(m, data, p0, p, Fields(), g, over) && (!over ==> MarkedAt(g.mark, data, p, marks))
      ensures nread == m.p.nread + 1 && state.HeaderField? && errno == old(errno) && events == old(events)
    {
      hide FieldByte, MachineInv, Run, MidByte, StepByte, Token;
      p, g, over := p0, m, false;
      InvMarks(m);
      ScanStarts(m, data, p0, Fields());
      while p != |data| && Token(data[p]) != '\0'
        invariant p0 <= p <= |data| && nread == m.p.nread + 1 && state.HeaderField?
        invariant errno == old(errno) && events == old(events)
        invariant LineInv(Fields()) && NameState(headerState, index) && index < 32
        invariant Scanned(m, data, p0, p, Fields(), g, over) && (!over ==> MarkedAt(g.mark, data, p, marks))
        decreases |data| - p
      {
        if headerState.General? {
          var end := p + Min(|data| - p, MAX_HEADER_SIZE);
          ghost var f := Fields();
          while p + 1 < end && Token(data[p + 1]) != '\0'
            invariant p0 <= p < end <= |data| && Token(data[p]) != '\0'
            invariant Fields() == f && errno == old(errno) && events == old(events)
            invariant Scanned(m, data, p0, p, Fields(), g, over) && (!over ==> MarkedAt(g.mark, data, p, marks))
          {
            GeneralName(Fields(), data[p], Token(data[p]));
            g, over := FieldScanAdvances(m, data, p0, p, Fields(), g, over, marks);
            p := p + 1;
          }
        }
        g, over := FieldScanAdvances(m, data, p0, p, Fields(), g, over, marks);
        FieldByteKeepsInv(Fields(), data[p], Token(data[p]));
        Store(FieldByte(Fields(), data[p], Token(data[p])));
        p := p + 1;
      }
    }

    /** `case s_header_field`: scan the rest of the name, counting its bytes at the end. */
    method ScanField(data: string, p0: nat, marks0: map<Kind, nat>, ghost m: Machine)
      returns (p: nat, marks: map<Kind, nat>, ctl: Ctl, ghost m': Machine)
      requires p0 < |data| <= MAX_BUFFER && state.HeaderField? && errno == OK
      requires MachineInv(m) && m.p.nread < MAX_HEADER_SIZE && Tracks(m.(p := Counted(m.p)), data, p0, marks0)
      modifies this
      ensures p0 <= p < |data| && Resolved(m, data, p0, p, ctl, m', marks)
    {
      hide MachineInv, Run, MidByte, StateInv, MarksOk, Token;
      ghost var over;
      marks := marks0;
      p, m', over := SkipName(data, p0, marks0, m);
      var end := p == |data|;
      if end { p := p - 1; }
      nread := nread + (p - p0);
      if nread > MAX_HEADER_SIZE {
        errno, ctl := HEADER_OVERFLOW, Fail(HEADER_OVERFLOW);
        assert !end && !over ==> Run(m, data[p0..]).ctl == Fail(HEADER_OVERFLOW) by {
          if !end && !over { OverflowAt(m', data, p); }
        }
        assert over || !end by { if !over { InvBudget(m'); } }
      } else if end {
        ctl := Next;
      } else {
        ScanEnds(m, data, p0, p, Fields().(nread := m.p.nread + 1), m', over);
        m' := m'.(p := Counted(m'.p));
        ctl := Again;
      }
    }

    /** The fast path for a value of no interest. It looks at no more than MAX_HEADER_SIZE bytes,
        and then lets one byte pass unexamined; by then the header budget is exhausted, so the scan
        ends in an error whatever that byte is. */
    method SkipGeneral(data: string, p0: nat, p1: nat, ghost marks: map<Kind, nat>, ghost m: Machine, ghost g0: Machine, ghost over0: bool)
      returns (p: nat, bad: bool, ghost g: Machine, ghost over: bool)
      requires p1 < |data| && state.HeaderValue? && headerState.General? && data[p1] != CR && data[p1] != LF
      requires Scanned(m, data, p0, p1, Fields(), g0, over0) && (!over0 ==> MarkedAt(g0.mark, data, p1, marks))
      ensures p1 <= p <= |data| && (bad || p1 < p)
      ensures bad ==> p < |data| && data[p] != CR && data[p] != LF && ValueByte(Fields(), data[p]) == ValueBad(INVALID_HEADER_TOKEN)
      ensures Scanned(m, data, p0, p, Fields(), g, over) && (!over ==> MarkedAt(g.mark, data, p, marks))
    {
      hide ValueByte, MachineInv, Run, MidByte, StepByte, IsHeaderChar, Scanned, MarkedAt;
      p, bad, g, over := p1, false, g0, over0;
      var end := p + Min(|data| - p, MAX_HEADER_SIZE);
      while p != end && data[p] != CR && data[p] != LF && !bad
        invariant p1 <= p <= end && (p == p1 ==> end != p)
        invariant bad ==> p < end && data[p] != CR && data[p] != LF && ValueByte(Fields(), data[p]) == ValueBad(INVALID_HEADER_TOKEN)
        invariant Scanned(m, data, p0, p, Fields(), g, over) && (!over ==> MarkedAt(g.mark, data, p, marks))
        decreases end - p, !bad
      {
        GeneralValue(Fields(), data[p]);
        if !IsHeaderChar(data[p]) {
          bad := true;
        } else {
          g, over := ValueScanAdvances(m, data, p0, p, Fields(), g, over, marks);
          p := p + 1;
        }
      }
      if p == end && p < |data| {
        assert p0 <= p1 by { ScanStart(m, data, p0, p1, Fields(), g0, over0); }
        ScanExhausted(m, data, p0, p, Fields(), g, over);
        g, over := ScanAdvances(m, data, p0, p, Fields(), Fields(), g, over);
        p := p + 1;
      }
    }

    /** The loop of `case s_header_value`; it stops at CR, LF, a byte that is not allowed, or the end. */
    method SkipValue(data: string, p0: nat, ghost marks: map<Kind, nat>, ghost m: Machine)
      returns (p: nat, bad: Errno, ghost g: Machine, ghost over: bool)
      requires p0 < |data| && state.HeaderValue? && MachineInv(m) && Tracks(m.(p := Counted(m.p)), data, p0, marks)
      modifies this
      ensures p0 <= p <= |data|
      ensures bad == OK ==> p == |data| || data[p] == CR || data[p] == LF
      ensures bad != OK ==> p < |data| && data[p] != CR && data[p] != LF && ValueByte(Fields(), data[p]) == ValueBad(bad)
      ensures Scanned(m, data, p0, p, Fields(), g, over) && (!over ==> MarkedAt(g.mark, data, p, marks))
      ensures nread == m.p.nread + 1 && state.HeaderValue? && errno == old(errno) && events == old(events)
    {
      hide ValueByte, MachineInv, Run, MidByte, StepByte, Scanned, MarkedAt;
      p, bad, g, over := p0, OK, m, false;
      InvMarks(m);
      ScanStarts(m, data, p0, Fields());
      assert MarkedAt(m.mark, data, p0, marks) by { TracksMark(m.(p := Counted(m.p)), data, p0, marks); }
      while p < |data| && data[p] != CR && data[p] != LF && bad == OK
        invariant p0 <= p <= |data| && nread == m.p.nread + 1 && state.HeaderValue?
        invariant errno == old(errno) && events == old(events)
        invariant bad != OK ==> p < |data| && data[p] != CR && data[p] != LF && ValueByte(Fields(), data[p]) == ValueBad(bad)
        invariant LineInv(Fields()) && ValueState(headerState, index) && index < 32
        invariant Scanned(m, data, p0, p, Fields(), g, over) && (!over ==> MarkedAt(g.mark, data, p, marks))
        decreases |data| - p, bad == OK
      {
        assert !headerState.Connection? && !headerState.TransferEncoding?;
        if headerState.General? {
          var stopped: bool;
          p, stopped, g, over := SkipGeneral(data, p0, p, marks, m, g, over);
          if stopped { bad := INVALID_HEADER_TOKEN; }
        } else {
          match ValueByte(Fields(), data[p]) {
            case ValueBad(e) => bad := e;
            case ValueOk(q) =>
              ValueByteKeepsInv(Fields(), data[p]);
              g, over := ValueScanAdvances(m, data, p0, p, Fields(), g, over, marks);
              Store(q);
              p := p + 1;
          }
        }
      }
    }

    lemma TracksMark(m: Machine, data: string, p: nat, marks: map<Kind, nat>)
      requires Tracks(m, data, p, marks)
      ensures MarkedAt(m.mark, data, p, marks)
    {}

    /** `case s_header_value`. At CR the callback is made before the bytes are counted, at LF after. */
    method ScanValue(data: string, p0: nat, marks0: map<Kind, nat>, ghost m: Machine)
      returns (p: nat, marks: map<Kind, nat>, ctl: Ctl, ghost m': Machine)
      requires p0 < |data| <= MAX_BUFFER && state.HeaderValue? && errno == OK
      requires MachineInv(m) && m.p.nread < MAX_HEADER_SIZE && Tracks(m.(p := Counted(m.p)), data, p0, marks0)
      modifies this
      ensures p0 <= p < |data| && Resolved(m, data, p0, p, ctl, m', marks)
    {
      hide MachineInv, Run, MidByte, StateInv, MarksOk, ValueByte;
      InvMarks(m);
      ghost var over;
      var bad: Errno;
      marks := marks0;
      p, bad, m', over := SkipValue(data, p0, marks0, m);
      if bad != OK {
        errno, ctl := bad, Fail(bad);
        ValueFails(m, data, p0, p, Fields(), m', over, bad);
        return;
      }
      var end := p == |data|;
      var cr := !end && data[p] == CR;
      if end { p := p - 1; }
      if cr {
        state := HeaderAlmostDone;
        events := events + [Data(Value, data[marks[Value]..p])];
        marks := map[];
      }
      nread := nread + (p - p0);
      if nread > MAX_HEADER_SIZE {
        errno, ctl := HEADER_OVERFLOW, Fail(HEADER_OVERFLOW);
        assert over || !end by { if !over { InvBudget(m'); } }
        assert Run(m, data[p0..]).ctl == Fail(HEADER_OVERFLOW) by {
          if !over { OverflowAt(m', data, p); }
        }
      } else if end {
        ctl := Next;
      } else if cr {
        ValueEnds(m', data, p);
        m' := Ended(m');
        ctl := Next;
      } else {
        ScanEnds(m, data, p0, p, Fields().(nread := m.p.nread + 1), m', over);
        m' := m'.(p := Counted(m'.p));
        ctl := Again;
      }
    }

    /** `case s_body_identity` and `case s_chunk_data`: take what the buffer holds of the body. The
        last byte of a Content-Length body is seen again for the message-complete callback. */
    method TakeBody(data: string, p0: nat, marks0: map<Kind, nat>, ghost m: Machine)
      returns (p: nat, marks: map<Kind, nat>, ctl: Ctl, ghost m': Machine)
      requires p0 < |data| && (state.BodyIdentity? || state.ChunkData?) && errno == OK
      requires MachineInv(m) && Tracks(m, data, p0, marks0)
      modifies this
      ensures p0 <= p < |data| && Resolved(m, data, p0, p, ctl, m', marks)
    {
      hide MachineInv, Run, MidByte, StateInv, MarksOk, MarkedAt;
      InvBody(m);
      assert contentLength != 0 && contentLength != NO_LENGTH && (state.ChunkData? ==> flags.chunked);
      var toRead := Min(contentLength, |data| - p0);
      marks := if Body in marks0 then marks0 else marks0[Body := p0];
      p := p0 + toRead - 1;
      BodyText(m.mark, data, p0, p + 1, marks0, marks);
      NothingMarked(data, p);
      contentLength := contentLength - toRead;
      if contentLength == 0 && state.BodyIdentity? {
        m' := SliceEnds(m, data, p0, toRead);
        state := MessageDone;
        events := events + [Data(Body, data[marks[Body]..p + 1])];
        marks := map[];
        ctl := Again;
      } else {
        m' := SliceStays(m, data, p0, toRead);
        if contentLength == 0 { state := ChunkDataAlmostDone; }
        ctl := Next;
      }
    }

    /** What a call has done at its end, against the byte-at-a-time reading of the same buffer: a
        successful call did exactly that, and an error is the same error in the same place unless
        the machine had run out of header budget before. */
    ghost predicate Agrees(r: Outcome, consumed: nat)
      reads this
    {
      if errno == OK then r == Outcome(Fields(), events, consumed, OK, r.exited)
      else r.errno == HEADER_OVERFLOW || (r.errno == errno && r.consumed == consumed && r.events == events)
    }

    /** The switch on byte `p`, executed again for as long as it asks for it. */
    method Reexecute(data: string, p0: nat, p: nat, marks0: map<Kind, nat>, ghost m: Machine, ghost m0: Machine)
      returns (marks: map<Kind, nat>, ctl: Ctl, ghost m': Machine)
      requires p0 <= p < |data| && Resolved(m, data, p0, p, Again, m0, marks0)
      modifies this
      ensures !ctl.Again? && Resolved(m, data, p0, p, ctl, m', marks)
    {
      hide Run, MidByte, MachineInv, StateInv, MarksOk, Switch, Rank, Extended;
      marks, ctl, m' := marks0, Again, m0;
      while ctl.Again?
        invariant Resolved(m, data, p0, p, ctl, m', marks)
        decreases ctl.Again?, Rank(m'.p.state)
      {
        PassResolves(m, data, p0, p, m');
        marks, ctl, m' := Pass(data, p, marks, m');
        if ctl.Next? {
          MarkMoves(m'.mark, data, p, marks);
          ExtendedMark(m', data, p, marks);
          m' := Extended(m', data[p]);
        }
      }
    }

    /** One byte of the main loop, or the run of bytes that its state scans. */
    method HandleByte(data: string, p0: nat, marks0: map<Kind, nat>, ghost m: Machine)
      returns (p: nat, marks: map<Kind, nat>, ctl: Ctl, ghost m': Machine)
      requires p0 < |data| <= MAX_BUFFER && errno == OK && MachineInv(m) && Tracks(m, data, p0, marks0)
      modifies this
      ensures p0 <= p < |data| && !ctl.Again? && Resolved(m, data, p0, p, ctl, m', marks)
    {
      hide MachineInv, Run, MidByte, StateInv, MarksOk;
      p, marks, m' := p0, marks0, m;
      if ParsingHeader(state) {
        nread := nread + 1;
        if nread > MAX_HEADER_SIZE {
          errno, ctl := HEADER_OVERFLOW, Fail(HEADER_OVERFLOW);
          OverflowAt(m, data, p0);
          return;
        }
      }
      CountedInv(m, data, p0);
      if state.HeaderField? {
        p, marks, ctl, m' := ScanField(data, p, marks, m);
      } else if state.HeaderValue? {
        p, marks, ctl, m' := ScanValue(data, p, marks, m);
      } else if state.BodyIdentity? || state.ChunkData? {
        p, marks, ctl, m' := TakeBody(data, p, marks, m);
      } else {
        ctl, m' := Again, m.(p := Counted(m.p));
      }
      if ctl.Again? {
        marks, ctl, m' := Reexecute(data, p0, p, marks, m, m');
      }
    }

    /** The marks set when a buffer continues a URL, a field name or a value. */
    method StartMarks(data: string) returns (marks: map<Kind, nat>)
      ensures MarkedAt(ResumedKind(state), data, 0, marks)
    {
      marks := map[];
      if state.HeaderField? { marks := map[Field := 0]; }
      if state.HeaderValue? { marks := map[Value := 0]; }
      if InUrl(state) { marks := map[Url := 0]; }
    }

    /** The callbacks for marks that are left over; there is at most one. */
    method DrainMarks(data: string, marks: map<Kind, nat>, ghost m: Machine)
      requires Tracks(m, data, |data|, marks)
      modifies this`events
      ensures events == Drain(m).events
    {
      assert |marks| <= 1;
      if m.mark.Marked? {
        assert data[marks[m.mark.kind]..] == data[marks[m.mark.kind]..|data|] == m.mark.text;
        assert m.mark.kind.Url? || m.mark.kind.Field? || m.mark.kind.Value? || m.mark.kind.Body?;
      }
      if Field in marks { events := events + [Data(Field, data[marks[Field]..])]; }
      if Value in marks { events := events + [Data(Value, data[marks[Value]..])]; }
      if Url in marks { events := events + [Data(Url, data[marks[Url]..])]; }
      if Body in marks { events := events + [Data(Body, data[marks[Body]..])]; }
    }

    method Execute(data: string) returns (consumed: nat)
      requires |data| <= MAX_BUFFER && ParserInv(Fields())
      modifies this
      ensures old(errno) != OK ==>
                consumed == 0 && Fields() == old(Fields()) && events == old(events) && errno == old(errno)
      ensures old(errno) == OK ==> Agrees(HttpRun.Execute(old(Fields()), old(events), data), consumed)
      ensures errno == OK ==> ParserInv(Fields())
      ensures data != "" ==> consumed <= |data|
    {
      hide MachineInv, StateInv, ParserInv, Run, ResumedKind;
      if errno != OK { return 0; }
      if data == "" {
        if state.Dead? || state.StartReq? { return 0; }
        errno := INVALID_EOF_STATE;
        return 1;
      }
      var marks := StartMarks(data);
      ghost var m0 := Resume(Fields(), events);
      ghost var m := m0;
      ResumeInv(Fields(), events);
      var p := 0;
      assert data[p..] == data;
      while p < |data|
        invariant p <= |data| && errno == OK && MachineInv(m) && Tracks(m, data, p, marks)
        invariant Run(m0, data) == Later(Run(m, data[p..]), p)
        decreases |data| - p
      {
        var ctl;
        p, marks, ctl, m := HandleByte(data, p, marks, m);
        if ctl.Fail? { return p; }
        if ctl.Exit? {
          ParserInvAt(m);
          return p + 1;
        }
        p := p + 1;
      }
      assert data[p..] == "";
      RunEmpty(m);
      ParserInvAt(m);
      DrainMarks(data, marks, m);
      return |data|;
    }
  }
}
