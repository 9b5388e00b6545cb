/** The input may be cut anywhere. A data callback can be delivered in pieces, so callback
    sequences are compared after joining neighbouring pieces of the same kind; up to that, feeding
    any list of non-empty fragments does what feeding their concatenation does. */
module HttpSplit {
  import opened HttpTypes
  import opened HttpSwitch
  import opened HttpRun
  import opened HttpInvariant
  import opened HttpMarks

  // ---------------------------------------------------------------- joined callbacks

  function Join(log: seq<Event>, e: Event): seq<Event> {
    if e.Data? && log != [] && log[|log| - 1].Data? && log[|log| - 1].kind == e.kind
    then log[..|log| - 1] + [Data(e.kind, log[|log| - 1].text + e.text)]
    else log + [e]
  }

  /** The callbacks with neighbouring data of one kind joined. */
  function Merge(events: seq<Event>): seq<Event>
    decreases |events|
  {
    if events == [] then [] else Join(Merge(events[..|events| - 1]), events[|events| - 1])
  }

  lemma MergeSnoc(events: seq<Event>, e: Event)
    ensures Merge(events + [e]) == Join(Merge(events), e)
  {
    assert (events + [e])[..|events|] == events;
  }

  predicate EndsWith(log: seq<Event>, k: Kind) {
    log != [] && log[|log| - 1].Data? && log[|log| - 1].kind == k
  }

  lemma JoinEnds(log: seq<Event>, k: Kind, t: string)
    ensures EndsWith(Join(log, Data(k, t)), k)
  {}

  lemma JoinEmpty(log: seq<Event>, k: Kind)
    requires EndsWith(log, k)
    ensures Join(log, Data(k, "")) == log
  {
    assert log[|log| - 1].text + "" == log[|log| - 1].text;
    assert log[..|log| - 1] + [log[|log| - 1]] == log;
  }

  lemma JoinTwice(log: seq<Event>, k: Kind, a: string, b: string)
    ensures Join(Join(log, Data(k, a)), Data(k, b)) == Join(log, Data(k, a + b))
  {
    var j := Join(log, Data(k, a));
    if EndsWith(log, k) {
      var t := log[|log| - 1].text;
      assert j[..|j| - 1] == log[..|log| - 1];
      assert t + a + b == t + (a + b);
    } else {
      assert j[..|j| - 1] == log;
    }
  }

  // ---------------------------------------------------------------- what can be seen of a machine

  /** The callbacks made, and the pending one as if it were made now. */
  function View(m: Machine): seq<Event> { Merge(Drain(m).events) }

  lemma ViewOf(m: Machine)
    ensures View(m) == if m.mark.Marked? then Join(Merge(m.events), Data(m.mark.kind, m.mark.text)) else Merge(m.events)
    ensures m.mark.Marked? ==> EndsWith(View(m), m.mark.kind)
  {
    if m.mark.Marked? {
      MergeSnoc(m.events, Data(m.mark.kind, m.mark.text));
      JoinEnds(Merge(m.events), m.mark.kind, m.mark.text);
    }
  }

  /** Two machines that differ only in how their callbacks have been cut. */
  predicate Alike(m1: Machine, m2: Machine) {
    m1.p == m2.p && View(m1) == View(m2) && MarksOk(m1) && MarksOk(m2)
  }

  /** Setting a mark that may be set already, seen from outside. */
  lemma ViewMark(m: Machine, k: Kind, ch: char)
    requires m.mark.Marked? ==> m.mark.kind == k
    ensures View(Perform(m, MarkAt(k), ch)) == Join(View(m), Data(k, ""))
  {
    ViewOf(m);
    ViewOf(Perform(m, MarkAt(k), ch));
    if m.mark.Marked? { JoinEmpty(View(m), k); }
  }

  lemma ViewFlush(m: Machine, k: Kind, ch: char)
    ensures View(Perform(m, Flush(k), ch)) == View(m)
  {}

  lemma ViewFlushThrough(m: Machine, k: Kind, ch: char)
    requires m.mark.Marked? && m.mark.kind == k
    ensures View(Perform(m, FlushThrough(k), ch)) == Join(View(m), Data(k, [ch]))
  {
    hide Join, EndsWith, Merge;
    ViewOf(m);
    MergeSnoc(m.events, Data(k, m.mark.text + [ch]));
    JoinTwice(Merge(m.events), k, m.mark.text, [ch]);
  }

  lemma ViewNotify(m: Machine, e: Event, ch: char)
    requires m.mark.Unmarked?
    ensures View(Perform(m, Notify(e), ch)) == Join(View(m), e)
  {
    MergeSnoc(m.events, e);
  }

  lemma ViewExtended(m: Machine, ch: char)
    ensures View(Extended(m, ch)) == if m.mark.Marked? then Join(View(m), Data(m.mark.kind, [ch])) else View(m)
  {
    ViewOf(m);
    ViewOf(Extended(m, ch));
    if m.mark.Marked? { JoinTwice(Merge(m.events), m.mark.kind, m.mark.text, [ch]); }
  }

  /** The actions of one pass, seen from outside, and the mark they leave. */
  function Seen(log: seq<Event>, acts: seq<Act>, ch: char): seq<Event> {
    if acts == [] then log
    else match acts[0]
      case Notify(e) => Join(log, e)
      case Flush(_) => log
      case FlushThrough(_) => log
      case MarkAt(k) =>
        if |acts| == 2 && acts[1].FlushThrough? then Join(Join(log, Data(k, "")), Data(k, [ch])) else Join(log, Data(k, ""))
  }

  lemma PerformSeen(m: Machine, q: Parser, acts: seq<Act>, ch: char)
    requires MarksOk(m) && Timed(m.p.state, acts, q.state)
    ensures var m' := PerformAll(m.(p := q), acts, ch);
            && View(m') == Seen(View(m), acts, ch)
            && (m'.mark.Marked? <==> (acts == [] && MustMark(m.p.state)) || (|acts| == 1 && acts[0].MarkAt?))
  {
    var n := m.(p := q);
    assert View(n) == View(m);
    if |acts| == 1 {
      assert acts[1..] == [];
      match acts[0] {
        case Notify(e) => ViewNotify(n, e, ch);
        case Flush(k) => ViewFlush(n, k, ch);
        case MarkAt(k) => ViewMark(n, k, ch);
        case FlushThrough(k) =>
      }
    } else if |acts| == 2 {
      var k := acts[0].kind;
      var m1 := Perform(n, acts[0], ch);
      assert acts[1..] == [acts[1]] && acts[1..][1..] == [];
      assert PerformAll(m1, acts[1..], ch) == Perform(m1, acts[1], ch);
      ViewMark(n, k, ch);
      if acts[1].Flush? { ViewFlush(m1, k, ch); } else { ViewFlushThrough(m1, k, ch); }
    }
  }

  // ---------------------------------------------------------------- alike machines stay alike

  lemma {:induction false} PassesAlike(m1: Machine, m2: Machine, ch: char)
    requires Alike(m1, m2)
    ensures var h1, h2 := Passes(m1, ch), Passes(m2, ch);
            && h1.ctl == h2.ctl && View(h1.m) == View(h2.m)
            && (!h1.ctl.Fail? ==> Alike(h1.m, h2.m) && (h1.m.mark.Marked? <==> h2.m.mark.Marked?))
    decreases Rank(m1.p.state)
  {
    hide Switch, MarksOk, Timed, Rank, View, Seen, MustMark;
    var o := Switch(m1.p, ch);
    AgainDescends(m1.p, ch);
    SwitchOrderly(m1.p, ch);
    if !o.ctl.Fail? {
      PerformKeepsMarks(m1, o.p, o.acts, ch);
      PerformKeepsMarks(m2, o.p, o.acts, ch);
      PerformSeen(m1, o.p, o.acts, ch);
      PerformSeen(m2, o.p, o.acts, ch);
      if o.ctl.Again? { PassesAlike(PerformAll(m1.(p := o.p), o.acts, ch), PerformAll(m2.(p := o.p), o.acts, ch), ch); }
    } else {
      FailSeen(m1, o.p, ch);
      FailSeen(m2, o.p, ch);
    }
  }

  lemma FailSeen(m: Machine, q: Parser, ch: char)
    ensures View(PerformAll(m.(p := q), [], ch)) == View(m)
  {}

  lemma StepAlike(m1: Machine, m2: Machine, ch: char)
    requires Alike(m1, m2)
    ensures var h1, h2 := StepByte(m1, ch), StepByte(m2, ch);
            h1.ctl == h2.ctl && View(h1.m) == View(h2.m) && (!h1.ctl.Fail? ==> Alike(h1.m, h2.m))
  {
    hide Passes, View, StateKind, MustMark;
    var c1, c2 := m1.(p := Counted(m1.p)), m2.(p := Counted(m2.p));
    assert Alike(c1, c2) by { CountedAlike(m1, m2); }
    PassesAlike(c1, c2, ch);
    ViewExtended(Passes(c1, ch).m, ch);
    ViewExtended(Passes(c2, ch).m, ch);
  }

  lemma CountedAlike(m1: Machine, m2: Machine)
    requires Alike(m1, m2)
    ensures Alike(m1.(p := Counted(m1.p)), m2.(p := Counted(m2.p)))
  {}

  lemma {:induction false} RunAlike(m1: Machine, m2: Machine, s: string)
    requires Alike(m1, m2)
    ensures var r1, r2 := Run(m1, s), Run(m2, s);
            && r1.ctl == r2.ctl && r1.consumed == r2.consumed && View(r1.m) == View(r2.m)
            && (!r1.ctl.Fail? ==> Alike(r1.m, r2.m))
    decreases |s|
  {
    hide StepByte, View, MarksOk;
    if s != "" {
      StepAlike(m1, m2, s[0]);
      if StepByte(m1, s[0]).ctl.Next? { RunAlike(StepByte(m1, s[0]).m, StepByte(m2, s[0]).m, s[1..]); }
    }
  }

  // ---------------------------------------------------------------- cutting the input

  lemma ResumedIsMarked(s: State)
    ensures ResumedKind(s).Marked? <==> MustMark(s)
    ensures MustMark(s) ==> StateKind(s) == SomeKind(ResumedKind(s).kind) && ResumedKind(s).text == ""
  {}

  /** A buffer boundary delivers the pending data and takes up the mark again. */
  lemma ResumeAlike(m: Machine)
    requires MarksOk(m)
    ensures Alike(m, Resume(m.p, Drain(m).events))
  {
    hide Merge, Join, InUrl, EndsWith;
    var m' := Resume(m.p, Drain(m).events);
    ResumedIsMarked(m.p.state);
    ViewOf(m);
    ViewOf(m');
    if m.mark.Marked? {
      MergeSnoc(m.events, Data(m.mark.kind, m.mark.text));
      if m'.mark.Marked? { JoinEmpty(View(m), m.mark.kind); }
    }
  }

  /** The same result, apart from the way successful calls cut their data callbacks. */
  predicate Same(r1: Outcome, r2: Outcome) {
    && r1.errno == r2.errno && r1.consumed == r2.consumed && r1.exited == r2.exited
    && (r1.errno == OK ==> r1.p == r2.p && Merge(r1.events) == Merge(r2.events))
  }

  function Shift(r: Outcome, n: nat): Outcome { r.(consumed := r.consumed + n) }

  lemma FinishedSame(r1: Result, r2: Result)
    requires r1.ctl == r2.ctl && r1.consumed == r2.consumed && !r1.ctl.Again?
    requires !r1.ctl.Fail? ==> Alike(r1.m, r2.m)
    requires r1.ctl.Exit? ==> r1.m.mark.Unmarked? && r2.m.mark.Unmarked?
    requires r1.ctl.Fail? ==> r1.ctl.errno != OK
    ensures Same(Finished(r1), Finished(r2))
  {}

  lemma {:induction false} RunStops(m: Machine, s: string)
    requires MachineInv(m)
    ensures Run(m, s).ctl.Exit? ==> Run(m, s).m.mark.Unmarked?
    ensures Run(m, s).ctl.Fail? ==> Run(m, s).ctl.errno != OK
    decreases |s|
  {
    hide StepByte, MachineInv;
    if s != "" {
      StepStops(m, s[0]);
      StepKeepsInv(m, s[0]);
      if StepByte(m, s[0]).ctl.Next? { RunStops(StepByte(m, s[0]).m, s[1..]); }
    }
  }

  lemma StepStops(m: Machine, ch: char)
    requires MachineInv(m)
    ensures var h := StepByte(m, ch);
            (h.ctl.Exit? ==> h.m.mark.Unmarked?) && (h.ctl.Fail? ==> h.ctl.errno != OK)
  {
    hide Passes, StateInv, MarksOk;
    CountingKeepsInv(m);
    if !(ParsingHeader(m.p.state) && m.p.nread + 1 > MAX_HEADER_SIZE) {
      PassesStop(m.(p := Counted(m.p)), ch);
    }
  }

  lemma {:induction false} PassesStop(m: Machine, ch: char)
    requires StateInv(m.p) && MarksOk(m) && m.p.nread <= MAX_HEADER_SIZE
    ensures var h := Passes(m, ch);
            (h.ctl.Exit? ==> h.m.mark.Unmarked?) && (h.ctl.Fail? ==> h.ctl.errno != OK)
    decreases Rank(m.p.state)
  {
    hide Switch, StateInv, Timed, Rank, StateKind, MustMark;
    var o := Switch(m.p, ch);
    AgainDescends(m.p, ch);
    SwitchOrderly(m.p, ch);
    if !o.ctl.Fail? {
      SwitchKeepsInv(m.p, ch);
      PerformKeepsMarks(m, o.p, o.acts, ch);
      var m' := PerformAll(m.(p := o.p), o.acts, ch);
      if o.ctl.Again? { PassesStop(m', ch); }
      if o.ctl.Exit? { ExitIsIdle(m.p, ch); IdleUnmarked(m'); }
    }
  }

  lemma IdleUnmarked(m: Machine)
    requires MarksOk(m) && Idle(m.p.state)
    ensures m.mark.Unmarked?
  {}

  lemma ExitIsIdle(p: Parser, ch: char)
    ensures Switch(p, ch).ctl.Exit? ==> Idle(Switch(p, ch).p.state)
  {
    hide ParseUrlChar, SwitchMethod, MethodString, FirstMethod, FieldByte, ValueByte, Token, Recorded, AddHex, Unhex, HasBody, ShouldKeepAlive;
    if InLine(p.state) {
    } else if InBody(p.state) {
      if p.state.HeadersDone? { } else if p.state.MessageDone? { }
    }
  }

  /** One cut: a call on `a + b` is a call on `a` followed, if that used up `a`, by a call on `b`. */
  lemma Cut(p: Parser, events: seq<Event>, a: string, b: string)
    requires ParserInv(p) && a != "" && b != ""
    ensures var r := Execute(p, events, a);
            if r.errno == OK && !r.exited
            then ParserInv(r.p) && Same(Execute(p, events, a + b), Shift(Execute(r.p, r.events, b), |a|))
            else Execute(p, events, a + b) == r
  {
    hide Run, ParserInv, MachineInv, Alike;
    var m := Resume(p, events);
    ResumeInv(p, events);
    RunConcat(m, a, b);
    RunStops(m, a);
    var r := Run(m, a);
    if r.ctl.Next? {
      RunKeepsInv(m, a);
      ParserInvAt(r.m);
      InvMarksOk(r.m);
      ResumeAlike(r.m);
      var m' := Resume(r.m.p, Drain(r.m).events);
      RunAlike(r.m, m', b);
      ResumeInv(r.m.p, Drain(r.m).events);
      RunStops(r.m, b);
      RunStops(m', b);
      FinishedSame(Run(r.m, b), Run(m', b));
    }
  }

  lemma InvMarksOk(m: Machine)
    requires MachineInv(m)
    ensures MarksOk(m)
  {}

  // ---------------------------------------------------------------- any number of cuts

  function Concat(fragments: seq<string>): string {
    if fragments == [] then "" else fragments[0] + Concat(fragments[1..])
  }

  /** Call after call, until the fragments are used up or a call stops early. */
  function FeedAll(p: Parser, events: seq<Event>, fragments: seq<string>): Outcome
    decreases |fragments|
  {
    if fragments == [] then Outcome(p, events, 0, OK, false)
    else
      var r := Execute(p, events, fragments[0]);
      if r.errno != OK || r.exited then r
      else Shift(FeedAll(r.p, r.events, fragments[1..]), |fragments[0]|)
  }

  lemma {:induction false} AnySplit(p: Parser, events: seq<Event>, fragments: seq<string>)
    requires ParserInv(p) && fragments != [] && forall f | f in fragments :: f != ""
    ensures Same(FeedAll(p, events, fragments), Execute(p, events, Concat(fragments)))
    decreases |fragments|
  {
    hide Run, ParserInv, Execute;
    var a, rest := fragments[0], fragments[1..];
    var r := Execute(p, events, a);
    if rest == [] {
      assert Concat(fragments) == a + "" == a;
      if r.errno == OK && !r.exited {
        ConsumesAll(p, events, a);
        assert FeedAll(r.p, r.events, rest) == Outcome(r.p, r.events, 0, OK, false);
      }
    } else {
      assert a in fragments && forall f | f in rest :: f in fragments;
      assert rest[0] in rest && Concat(rest)[0] == rest[0][0];
      Cut(p, events, a, Concat(rest));
      if r.errno == OK && !r.exited { AnySplit(r.p, r.events, rest); }
    }
  }

  /** A call that neither fails nor leaves the stream to another protocol reports all its bytes. */
  lemma ConsumesAll(p: Parser, events: seq<Event>, data: string)
    requires ParserInv(p)
    ensures var r := Execute(p, events, data);
            r.consumed <= |data| + 1 && (r.errno == OK && !r.exited ==> r.consumed == |data|)
  {
    hide StepByte, ParserInv, MachineInv;
    ResumeInv(p, events);
    if data != "" { RunStops(Resume(p, events), data); }
  }
}
