/** Composing runs of the parser over the pieces of a message. */
module HttpReads {
  import opened HttpTypes
  import opened HttpSwitch
  import opened HttpRun

  /** The machine reads all of `s` and comes to `m'`. */
  predicate Reads(m: Machine, s: string, m': Machine) { Run(m, s) == Result(m', |s|, Next) }

  lemma ReadsNothing(m: Machine)
    ensures Reads(m, "", m)
  {}

  lemma ReadsThen(m: Machine, a: string, m1: Machine, b: string, m2: Machine)
    requires Reads(m, a, m1) && Reads(m1, b, m2)
    ensures Reads(m, a + b, m2)
  {
    hide Run;
    RunConcat(m, a, b);
  }

  lemma ReadsByte(m: Machine, ch: char, m': Machine)
    requires StepByte(m, ch) == Handled(m', Next)
    ensures Reads(m, [ch], m')
  {
    hide StepByte;
    assert [ch][1..] == "";
    assert Run(m', "") == Result(m', 0, Next);
  }

  /** Budget for `n` more header bytes. */
  predicate Affords(p: Parser, n: nat) { p.nread + n <= MAX_HEADER_SIZE }

  /** A byte of a header state that goes on to `q` and touches no mark. */
  lemma PlainByte(m: Machine, ch: char, q: Parser)
    requires ParsingHeader(m.p.state) && Affords(m.p, 1) && Switch(Counted(m.p), ch) == Out(q, [], Next)
    ensures Reads(m, [ch], Extended(m.(p := q), ch))
  {
    hide Switch;
    ReadsByte(m, ch, Extended(m.(p := q), ch));
  }

  /** A byte of a header state that sets the mark. */
  lemma MarkByte(m: Machine, ch: char, q: Parser, k: Kind)
    requires ParsingHeader(m.p.state) && Affords(m.p, 1) && m.mark.Unmarked?
    requires Switch(Counted(m.p), ch) == Out(q, [MarkAt(k)], Next)
    ensures Reads(m, [ch], Machine(q, Marked(k, [ch]), m.events))
  {
    hide Switch;
    var m1 := Perform(m.(p := q), MarkAt(k), ch);
    assert PerformAll(m.(p := q), [MarkAt(k)], ch) == m1 by { assert [MarkAt(k)][1..] == []; }
    assert "" + [ch] == [ch];
    ReadsByte(m, ch, Machine(q, Marked(k, [ch]), m.events));
  }

  /** A byte of a header state that delivers the marked data. */
  lemma FlushByte(m: Machine, ch: char, q: Parser)
    requires ParsingHeader(m.p.state) && Affords(m.p, 1) && m.mark.Marked?
    requires Switch(Counted(m.p), ch) == Out(q, [Flush(m.mark.kind)], Next)
    ensures Reads(m, [ch], Machine(q, Unmarked, m.events + [Data(m.mark.kind, m.mark.text)]))
  {
    hide Switch;
    var act := Flush(m.mark.kind);
    var m1 := Perform(m.(p := q), act, ch);
    assert PerformAll(m.(p := q), [act], ch) == m1 by { assert [act][1..] == []; }
    ReadsByte(m, ch, m1);
  }

  /** A byte of a header state that makes a callback without data. */
  lemma NotifyByte(m: Machine, ch: char, q: Parser, e: Event)
    requires ParsingHeader(m.p.state) && Affords(m.p, 1) && m.mark.Unmarked?
    requires Switch(Counted(m.p), ch) == Out(q, [Notify(e)], Next)
    ensures Reads(m, [ch], Machine(q, Unmarked, m.events + [e]))
  {
    hide Switch;
    var m1 := Perform(m.(p := q), Notify(e), ch);
    assert PerformAll(m.(p := q), [Notify(e)], ch) == m1 by { assert [Notify(e)][1..] == []; }
    ReadsByte(m, ch, m1);
  }
}
