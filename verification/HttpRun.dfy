/** The byte-at-a-time reading of `http_parser_execute`: one buffer is consumed by stepping a
    machine that carries the parser fields, the text under the live callback mark, and the
    callbacks made so far. HttpExecute proves that the scanning loops compute exactly this. */
module HttpRun {
  import opened HttpTypes
  import opened HttpSwitch

  /** The live mark, with the bytes between it and the current position. */
  datatype Mark = Unmarked | Marked(kind: Kind, text: string)

  datatype Machine = Machine(p: Parser, mark: Mark, events: seq<Event>)

  function Perform(m: Machine, act: Act, ch: char): Machine {
    match act
    case MarkAt(k) => if m.mark.Unmarked? then m.(mark := Marked(k, "")) else m
    case Flush(k) =>
      if m.mark.Marked? && m.mark.kind == k
      then m.(mark := Unmarked, events := m.events + [Data(k, m.mark.text)]) else m
    case FlushThrough(k) =>
      if m.mark.Marked? && m.mark.kind == k
      then m.(mark := Unmarked, events := m.events + [Data(k, m.mark.text + [ch])]) else m
    case Notify(e) => m.(events := m.events + [e])
  }

  function PerformAll(m: Machine, acts: seq<Act>, ch: char): Machine
    decreases acts
  {
    if acts == [] then m else PerformAll(Perform(m, acts[0], ch), acts[1..], ch)
  }

  /** The result of handling one byte. */
  datatype Handled = Handled(m: Machine, ctl: Ctl)

  /** The switch, re-executed until it asks for the next byte or stops. */
  function Passes(m: Machine, ch: char): (h: Handled)
    ensures !h.ctl.Again?
    decreases Rank(m.p.state)
  {
    var o := Switch(m.p, ch);
    AgainDescends(m.p, ch);
    var m' := PerformAll(m.(p := o.p), o.acts, ch);
    assert m'.p == o.p by { PerformAllKeepsFields(m.(p := o.p), o.acts, ch); }
    if o.ctl.Again? then Passes(m', ch) else Handled(m', o.ctl)
  }

  lemma PerformAllKeepsFields(m: Machine, acts: seq<Act>, ch: char)
    ensures PerformAll(m, acts, ch).p == m.p
    decreases acts
  {}

  /** COUNT_HEADER_SIZE(1), in header states only. */
  function Counted(p: Parser): Parser {
    if ParsingHeader(p.state) then p.(nread := p.nread + 1) else p
  }

  function Extended(m: Machine, ch: char): Machine {
    if m.mark.Marked? then m.(mark := Marked(m.mark.kind, m.mark.text + [ch])) else m
  }

  function StepByte(m: Machine, ch: char): (h: Handled)
    ensures !h.ctl.Again?
  {
    if ParsingHeader(m.p.state) && m.p.nread + 1 > MAX_HEADER_SIZE then Handled(m, Fail(HEADER_OVERFLOW))
    else
      var h := Passes(m.(p := Counted(m.p)), ch);
      if h.ctl.Next? then Handled(Extended(h.m, ch), Next) else h
  }

  // ---------------------------------------------------------------- runs

  datatype Result = Result(m: Machine, consumed: nat, ctl: Ctl)

  function Later(r: Result, n: nat): Result { r.(consumed := r.consumed + n) }

  function Run(m: Machine, s: string): (r: Result)
    ensures r.consumed <= |s|
    ensures r.ctl.Next? ==> r.consumed == |s|
    ensures !r.ctl.Again?
    decreases |s|
  {
    if s == "" then Result(m, 0, Next)
    else
      var h := StepByte(m, s[0]);
      match h.ctl
      case Next => Later(Run(h.m, s[1..]), 1)
      case Exit => Result(h.m, 1, Exit)
      case Fail(e) => Result(h.m, 0, Fail(e))
  }

  /** The rest of a run in the middle of its first byte, which has been counted already. */
  function MidByte(m: Machine, s: string): Result
    requires s != ""
  {
    var h := Passes(m, s[0]);
    match h.ctl
    case Next => Later(Run(Extended(h.m, s[0]), s[1..]), 1)
    case Exit => Result(h.m, 1, Exit)
    case Fail(e) => Result(h.m, 0, Fail(e))
  }

  lemma RunEmpty(m: Machine)
    ensures Run(m, "") == Result(m, 0, Next)
  {}

  lemma RunCounts(m: Machine, s: string)
    requires s != ""
    ensures Run(m, s) ==
            if ParsingHeader(m.p.state) && m.p.nread + 1 > MAX_HEADER_SIZE then Result(m, 0, Fail(HEADER_OVERFLOW))
            else MidByte(m.(p := Counted(m.p)), s)
  {
    hide Passes, Counted, ParsingHeader;
  }

  /** A run over `a + b` is the run over `a`, continued on `b` when `a` was consumed without a stop. */
  lemma {:induction false} RunConcat(m: Machine, a: string, b: string)
    ensures Run(m, a + b) ==
            if Run(m, a).ctl.Next? then Later(Run(Run(m, a).m, b), |a|) else Run(m, a)
    decreases |a|
  {
    if a == "" {
      assert a + b == b;
    } else {
      assert (a + b)[0] == a[0] && (a + b)[1..] == a[1..] + b;
      var h := StepByte(m, a[0]);
      if h.ctl.Next? {
        RunConcat(h.m, a[1..], b);
      }
    }
  }

  // ---------------------------------------------------------------- buffers

  /** The states in which `http_parser_execute` starts a buffer with a mark set. */
  function ResumedKind(s: State): Mark {
    if InUrl(s) then Marked(Url, "")
    else match s
      case HeaderField => Marked(Field, "")
      case HeaderValue => Marked(Value, "")
      case _ => Unmarked
  }

  function Resume(p: Parser, events: seq<Event>): Machine { Machine(p, ResumedKind(p.state), events) }

  /** The callback for the mark left over when the buffer is used up. */
  function Drain(m: Machine): Machine {
    match m.mark
    case Unmarked => m
    case Marked(k, t) => m.(mark := Unmarked, events := m.events + [Data(k, t)])
  }

  /** What one call does: final fields, callbacks made, bytes consumed, error code, and whether the
      rest of the stream was left to another protocol. */
  datatype Outcome = Outcome(p: Parser, events: seq<Event>, consumed: nat, errno: Errno, exited: bool)

  function Finished(r: Result): Outcome {
    match r.ctl
    case Next => Outcome(r.m.p, Drain(r.m).events, r.consumed, OK, false)
    case Fail(e) => Outcome(r.m.p, r.m.events, r.consumed, e, false)
    case _ => Outcome(r.m.p, r.m.events, r.consumed, OK, true)
  }

  /** `http_parser_execute` on a parser that is not in an error state. */
  function Execute(p: Parser, events: seq<Event>, data: string): Outcome {
    if data == "" then
      if p.state.Dead? || p.state.StartReq? then Outcome(p, events, 0, OK, false)
      else Outcome(p, events, 1, INVALID_EOF_STATE, false)
    else Finished(Run(Resume(p, events), data))
  }
}
