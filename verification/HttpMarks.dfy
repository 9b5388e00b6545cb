/** When the parser sets and clears the callback marks. Two marks are never live together, a
    callback is never made out of order with pending data, and the bulk scans of one buffer can
    be cut anywhere. */
module HttpMarks {
  import opened HttpTypes
  import opened HttpSwitch
  import opened HttpRun
  import opened HttpInvariant

  datatype MaybeKind = NoKind | SomeKind(kind: Kind)

  /** The only mark that can be live between two bytes in state `s`. */
  function StateKind(s: State): MaybeKind {
    if InUrl(s) then SomeKind(Url)
    else if s.HeaderField? then SomeKind(Field)
    else if s.HeaderValue? then SomeKind(Value)
    else if s.ChunkData? || s.ChunkDataAlmostDone? || s.BodyIdentity? then SomeKind(Body)
    else NoKind
  }

  /** The states in which the mark is live for sure. */
  predicate MustMark(s: State) { InUrl(s) || s.HeaderField? || s.HeaderValue? }

  /** The mark actions a pass may perform between two states. */
  predicate Timed(pre: State, acts: seq<Act>, post: State) {
    || (acts == [] && ((StateKind(pre).NoKind? && !MustMark(post)) || (MustMark(pre) && StateKind(post) == StateKind(pre))))
    || (|acts| == 1 && acts[0].Notify? && StateKind(pre).NoKind? && !MustMark(post))
    || (|acts| == 1 && acts[0].Flush? && StateKind(pre) == SomeKind(acts[0].kind) && StateKind(post).NoKind?)
    || (|acts| == 1 && acts[0].MarkAt? && StateKind(post) == SomeKind(acts[0].kind)
        && (StateKind(pre).NoKind? || StateKind(pre) == StateKind(post)))
    || (|acts| == 2 && acts[0].MarkAt? && acts[1] in {Flush(acts[0].kind), FlushThrough(acts[0].kind)}
        && (StateKind(pre).NoKind? || StateKind(pre) == SomeKind(acts[0].kind)) && StateKind(post).NoKind?)
  }

  /** A pass that fails touches no mark. A pass that does not performs timely actions, leaves the
      header budget alone or resets it, and enters a chunk header with the budget reset. */
  predicate Orderly(p: Parser, o: Out) {
    if o.ctl.Fail? then o.acts == [] && o.ctl.errno != OK
    else
      && Timed(p.state, o.acts, o.p.state)
      && (o.p.nread == p.nread || o.p.nread == 0)
      && (o.p.state.ChunkSizeStart? ==> o.p.nread == 0)
  }

  lemma UrlOrderly(p: Parser, ch: char)
    requires p.state.ReqSpacesBeforeUrl? || InUrl(p.state)
    ensures Orderly(p, SwitchRequest(p, ch))
  {
    hide ParseUrlChar;
  }

  lemma RequestOrderly(p: Parser, ch: char)
    requires !InLine(p.state) && !InBody(p.state)
    ensures Orderly(p, SwitchRequest(p, ch))
  {
    hide SwitchMethod, MethodString, FirstMethod, UrlTo, OnSpacesBeforeUrl, OnUrlRest;
    if p.state.ReqSpacesBeforeUrl? || InUrl(p.state) { UrlOrderly(p, ch); }
  }

  lemma StartsOrderly(p: Parser, ch: char)
    ensures p.state.HeaderFieldStart? ==> Orderly(p, OnFieldStart(p, ch))
    ensures p.state.HeaderValueDiscardWs? || p.state.HeaderValueStart? ==> Orderly(p, OnValueStart(p, ch))
  {
    hide Token, Lower;
    if p.state.HeaderFieldStart? { }
  }

  lemma LineOrderly(p: Parser, ch: char)
    requires InLine(p.state)
    ensures Orderly(p, SwitchLine(p, ch))
  {
    hide FieldByte, ValueByte, Token, Recorded, OnFieldStart, OnValueStart;
    StartsOrderly(p, ch);
  }

  lemma ChunkOrderly(p: Parser, ch: char)
    requires InChunk(p.state)
    ensures Orderly(p, SwitchBody(p, ch))
  {
    hide AddHex, Unhex;
  }

  lemma BodyOrderly(p: Parser, ch: char)
    requires InBody(p.state)
    ensures Orderly(p, SwitchBody(p, ch))
  {
    hide OnChunkSize, OnChunkData, ShouldKeepAlive, HasBody;
    if InChunk(p.state) { ChunkOrderly(p, ch); }
  }

  lemma SwitchOrderly(p: Parser, ch: char)
    ensures Orderly(p, Switch(p, ch))
  {
    hide SwitchRequest, SwitchLine, SwitchBody, Orderly;
    if InLine(p.state) { LineOrderly(p, ch); }
    else if InBody(p.state) { BodyOrderly(p, ch); }
    else { RequestOrderly(p, ch); }
  }

  // ---------------------------------------------------------------- the machine invariant

  predicate MarksOk(m: Machine) {
    && (m.mark.Marked? ==> StateKind(m.p.state) == SomeKind(m.mark.kind))
    && (MustMark(m.p.state) ==> m.mark.Marked?)
  }

  predicate Budgeted(p: Parser) {
    p.nread <= MAX_HEADER_SIZE && (p.state.ChunkSizeStart? ==> p.nread == 0)
  }

  /** What holds between any two bytes of any input. */
  predicate MachineInv(m: Machine) { StateInv(m.p) && MarksOk(m) && Budgeted(m.p) }

  /** No action starts a mark while another one is live. */
  predicate OneMark(m: Machine, acts: seq<Act>, ch: char)
    decreases acts
  {
    acts == [] ||
    ((acts[0].MarkAt? && m.mark.Marked? ==> m.mark.kind == acts[0].kind) && OneMark(Perform(m, acts[0], ch), acts[1..], ch))
  }

  lemma PerformKeepsMarks(m: Machine, q: Parser, acts: seq<Act>, ch: char)
    requires MarksOk(m) && Timed(m.p.state, acts, q.state)
    ensures MarksOk(PerformAll(m.(p := q), acts, ch))
    ensures PerformAll(m.(p := q), acts, ch).p == q
    ensures OneMark(m.(p := q), acts, ch)
  {
    PerformAllKeepsFields(m.(p := q), acts, ch);
    if |acts| == 1 {
      assert acts[1..] == [];
    } else if |acts| == 2 {
      var m1 := Perform(m.(p := q), acts[0], ch);
      assert acts[1..] == [acts[1]] && acts[1..][1..] == [];
      assert PerformAll(m1, acts[1..], ch) == Perform(m1, acts[1], ch);
      assert OneMark(m1, acts[1..], ch);
    }
  }

  lemma {:induction false} PassesKeepInv(m: Machine, ch: char)
    requires StateInv(m.p) && MarksOk(m) && m.p.nread <= MAX_HEADER_SIZE
    ensures !Passes(m, ch).ctl.Fail? ==> MachineInv(Passes(m, ch).m)
    decreases Rank(m.p.state)
  {
    hide Switch, StateInv, MarksOk, Timed, Rank;
    var o := Switch(m.p, ch);
    AgainDescends(m.p, ch);
    SwitchOrderly(m.p, ch);
    SwitchKeepsInv(m.p, ch);
    if !o.ctl.Fail? {
      PerformKeepsMarks(m, o.p, o.acts, ch);
      if o.ctl.Again? { PassesKeepInv(PerformAll(m.(p := o.p), o.acts, ch), ch); }
    }
  }

  lemma CountingKeepsInv(m: Machine)
    requires MachineInv(m)
    ensures StateInv(Counted(m.p)) && MarksOk(m.(p := Counted(m.p)))
  {}

  lemma StepKeepsInv(m: Machine, ch: char)
    requires MachineInv(m)
    ensures !StepByte(m, ch).ctl.Fail? ==> MachineInv(StepByte(m, ch).m)
  {
    hide Passes, StateInv, StateKind, MustMark;
    CountingKeepsInv(m);
    if !(ParsingHeader(m.p.state) && m.p.nread + 1 > MAX_HEADER_SIZE) {
      PassesKeepInv(m.(p := Counted(m.p)), ch);
    }
  }

  lemma {:induction false} RunKeepsInv(m: Machine, s: string)
    requires MachineInv(m)
    ensures !Run(m, s).ctl.Fail? ==> MachineInv(Run(m, s).m)
    decreases |s|
  {
    hide StepByte, MachineInv;
    if s != "" {
      StepKeepsInv(m, s[0]);
      if StepByte(m, s[0]).ctl.Next? { RunKeepsInv(StepByte(m, s[0]).m, s[1..]); }
    }
  }

  /** What a parser can be between two calls. */
  predicate ParserInv(p: Parser) { StateInv(p) && Budgeted(p) }

  lemma InitialInv()
    ensures ParserInv(INITIAL)
  {}

  lemma ResumeInv(p: Parser, events: seq<Event>)
    requires ParserInv(p)
    ensures MachineInv(Resume(p, events))
  {
    hide StateInv;
  }

  lemma ParserInvAt(m: Machine)
    requires MachineInv(m)
    ensures ParserInv(m.p)
  {}
}
