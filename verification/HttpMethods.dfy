/** The request method is matched one byte at a time, moving between methods that share a prefix.
    Exactly the names in the method table are recognised, each as itself. */
module HttpMethods {
  import opened HttpTypes
  import opened HttpSwitch
  import opened HttpRun
  import opened HttpReads

  /** Moving to another method keeps the prefix that has been read. */
  lemma SwitchKeepsPrefix(m: Method, i: nat, ch: char)
    requires i <= |MethodString(m)|
    ensures var r := SwitchMethod(m, i, ch);
            r != m ==> MethodString(r)[..i] == MethodString(m)[..i] && MethodString(r)[i] == ch
  {
    var r := SwitchMethod(m, i, ch);
    if r != m { assert |MethodString(r)[..i]| <= 4; }
  }

  /** The bytes read so far spell the beginning of the current method's name. */
  predicate Spells(p: Parser, w: string) {
    && p.state.ReqMethod? && p.index == |w| <= |MethodString(p.verb)|
    && MethodString(p.verb)[..|w|] == w
  }

  lemma MethodStrings(m: Method)
    ensures 3 <= |MethodString(m)| <= 11
    ensures forall c | c in MethodString(m) :: c != ' ' && c != '\0'
  {}

  /** Sound: a name that ends in a space where the parser accepts one is the name of the method. */
  lemma MethodByte(p: Parser, w: string, ch: char)
    requires Spells(p, w)
    ensures var o := OnMethod(p, ch);
            !o.ctl.Fail? ==>
              && o.ctl.Next? && o.acts == []
              && if o.p.state.ReqMethod? then Spells(o.p, w + [ch])
                 else o.p.state.ReqSpacesBeforeUrl? && ch == ' ' && w == MethodString(o.p.verb)
  {
    hide MethodString, SwitchMethod;
    var s := MethodString(p.verb);
    MethodStrings(p.verb);
    SwitchKeepsPrefix(p.verb, p.index, ch);
    var r := SwitchMethod(p.verb, p.index, ch);
    if ch == At(s, p.index) && p.index < |s| {
      assert s[..|w| + 1] == w + [ch];
    } else if r != p.verb {
      assert MethodString(r)[..|w| + 1] == MethodString(r)[..|w|] + [ch];
    }
    assert s[..|s|] == s;
    if p.index < |s| { assert s[p.index] in s; }
  }

  /** Complete: the method the parser holds after `k` bytes of the name of `v`. */
  function VerbAt(v: Method, k: nat): Method {
    match v
    case PUT => if k < 2 then POST else PUT
    case PATCH => if k < 2 then POST else PATCH
    case PURGE => if k < 2 then POST else if k < 3 then PUT else PURGE
    case PROPFIND => if k < 2 then POST else PROPFIND
    case PROPPATCH => if k < 2 then POST else if k < 5 then PROPFIND else PROPPATCH
    case CHECKOUT => if k < 2 then CONNECT else CHECKOUT
    case COPY => if k < 3 then CONNECT else COPY
    case MOVE => if k < 2 then MKCOL else MOVE
    case MERGE => if k < 2 then MKCOL else MERGE
    case MSEARCH => if k < 2 then MKCOL else MSEARCH
    case MKACTIVITY => if k < 3 then MKCOL else MKACTIVITY
    case MKCALENDAR => if k < 4 then MKCOL else MKCALENDAR
    case SEARCH => if k < 2 then SUBSCRIBE else SEARCH
    case SOURCE => if k < 2 then SUBSCRIBE else SOURCE
    case REBIND => if k < 3 then REPORT else REBIND
    case LINK => if k < 2 then LOCK else LINK
    case UNSUBSCRIBE => if k < 3 then UNLOCK else UNSUBSCRIBE
    case UNBIND => if k < 3 then UNLOCK else UNBIND
    case UNLINK => if k < 4 then UNLOCK else UNLINK
    case _ => v
  }

  lemma VerbBegins(v: Method)
    ensures MethodString(v)[0] in {'A', 'B', 'C', 'D', 'G', 'H', 'L', 'M', 'N', 'O', 'P', 'R', 'S', 'T', 'U'}
    ensures FirstMethod(MethodString(v)[0]) == VerbAt(v, 1) && VerbAt(v, |MethodString(v)|) == v
  {}

  /** Each byte of a name either continues the method held or moves on to the next one. */
  lemma VerbStep(v: Method, k: nat)
    requires 1 <= k < |MethodString(v)|
    ensures var u, c := VerbAt(v, k), MethodString(v)[k];
            if At(MethodString(u), k) == c then VerbAt(v, k + 1) == u
            else SwitchMethod(u, k, c) != u && VerbAt(v, k + 1) == SwitchMethod(u, k, c)
  {}

  /** The parser after `k` bytes of a method name that started a message. */
  function InName(p: Parser, v: Method, k: nat): Parser {
    p.(state := ReqMethod, flags := NO_FLAGS, contentLength := NO_LENGTH, index := k, verb := VerbAt(v, k), nread := p.nread + k)
  }

  lemma StartSwitch(p: Parser, v: Method)
    requires p.state.StartReq?
    ensures Switch(Counted(p), MethodString(v)[0]) == Out(InName(p, v, 1), [Notify(MessageBegin)], Next)
  {
    hide MethodString, VerbAt, FirstMethod;
    VerbBegins(v);
  }

  lemma NameSwitch(p: Parser, v: Method, k: nat)
    requires 1 <= k < |MethodString(v)|
    ensures Switch(Counted(InName(p, v, k)), MethodString(v)[k]) == Out(InName(p, v, k + 1), [], Next)
  {
    hide MethodString, VerbAt, SwitchMethod;
    MethodStrings(v);
    assert MethodString(v)[k] in MethodString(v);
    VerbStep(v, k);
  }

  lemma NameEndSwitch(p: Parser, v: Method)
    ensures var n := |MethodString(v)|;
            Switch(Counted(InName(p, v, n)), ' ') ==
            Out(InName(p, v, n).(state := ReqSpacesBeforeUrl, index := n + 1, nread := p.nread + n + 1), [], Next)
  {
    hide MethodString, SwitchMethod;
    MethodStrings(v);
    VerbBegins(v);
  }

  lemma {:induction false} ReadsName(m: Machine, v: Method, k: nat)
    requires m.p.state.StartReq? && m.mark.Unmarked? && 1 <= k <= |MethodString(v)| && Affords(m.p, k)
    ensures Reads(m, MethodString(v)[..k], Machine(InName(m.p, v, k), Unmarked, m.events + [MessageBegin]))
    decreases k
  {
    hide MethodString, Switch, VerbAt, Reads;
    var s := MethodString(v);
    if k == 1 {
      StartSwitch(m.p, v);
      NotifyByte(m, s[0], InName(m.p, v, 1), MessageBegin);
      assert s[..1] == [s[0]];
    } else {
      ReadsName(m, v, k - 1);
      var m1 := Machine(InName(m.p, v, k - 1), Unmarked, m.events + [MessageBegin]);
      NameSwitch(m.p, v, k - 1);
      PlainByte(m1, s[k - 1], InName(m.p, v, k));
      assert s[..k] == s[..k - 1] + [s[k - 1]];
      ReadsThen(m, s[..k - 1], m1, [s[k - 1]], Extended(m1.(p := InName(m.p, v, k)), s[k - 1]));
    }
  }

  /** Any method name and a space. */
  lemma ReadsMethod(m: Machine, v: Method)
    requires m.p.state.StartReq? && m.mark.Unmarked? && Affords(m.p, |MethodString(v)| + 1)
    ensures var n := |MethodString(v)|;
            Reads(m, MethodString(v) + " ",
                  Machine(m.p.(state := ReqSpacesBeforeUrl, flags := NO_FLAGS, contentLength := NO_LENGTH, index := n + 1,
                               verb := v, nread := m.p.nread + n + 1),
                          Unmarked, m.events + [MessageBegin]))
  {
    hide MethodString, Switch, VerbAt, Reads;
    var n := |MethodString(v)|;
    MethodStrings(v);
    VerbBegins(v);
    ReadsName(m, v, n);
    assert MethodString(v)[..n] == MethodString(v);
    NameEndSwitch(m.p, v);
    var m1 := Machine(InName(m.p, v, n), Unmarked, m.events + [MessageBegin]);
    var q := InName(m.p, v, n).(state := ReqSpacesBeforeUrl, index := n + 1, nread := m.p.nread + n + 1);
    PlainByte(m1, ' ', q);
    ReadsThen(m, MethodString(v), m1, " ", m1.(p := q));
  }

  lemma FirstSpells(p: Parser, ch: char)
    requires p.state.StartReq? && ch != CR && ch != LF
    ensures var o := Switch(p, ch);
            !o.ctl.Fail? ==> o.ctl.Next? && o.acts == [Notify(MessageBegin)] && Spells(o.p, [ch])
  {
    if ch in {'A', 'B', 'C', 'D', 'G', 'H', 'L', 'M', 'N', 'O', 'P', 'R', 'S', 'T', 'U'} {
      FirstLetter(ch);
    }
  }

  lemma FirstLetter(ch: char)
    requires ch in {'A', 'B', 'C', 'D', 'G', 'H', 'L', 'M', 'N', 'O', 'P', 'R', 'S', 'T', 'U'}
    ensures var s := MethodString(FirstMethod(ch)); |s| > 1 && s[..1] == [ch]
  {}

  /** What a machine does with a byte when its switch acts at most by a callback without data. */
  lemma StepSwitch(m: Machine, ch: char)
    requires ParsingHeader(m.p.state) && m.mark.Unmarked?
    requires var o := Switch(Counted(m.p), ch); o.ctl.Next? && (o.acts == [] || (|o.acts| == 1 && o.acts[0].Notify?))
    ensures var h := StepByte(m, ch);
            h.ctl.Next? ==> h.m.p == Switch(Counted(m.p), ch).p && h.m.mark.Unmarked?
  {
    hide Switch;
    var o := Switch(Counted(m.p), ch);
    var c := m.(p := Counted(m.p));
    if o.acts != [] {
      assert o.acts[1..] == [];
      assert PerformAll(c.(p := o.p), o.acts, ch) == Perform(c.(p := o.p), o.acts[0], ch);
    }
    assert Passes(c, ch) == Handled(PerformAll(c.(p := o.p), o.acts, ch), Next);
  }

  lemma StepFails(m: Machine, ch: char)
    requires ParsingHeader(m.p.state) && Switch(Counted(m.p), ch).ctl.Fail?
    ensures StepByte(m, ch).ctl.Fail?
  {
    hide Switch;
  }

  /** Whatever a parser has accepted as the beginning of a method spells that method. */
  lemma {:induction false} NameSpelled(m: Machine, w: string)
    requires m.p.state.StartReq? && m.mark.Unmarked? && w != "" && w[0] != CR && w[0] != LF && ' ' !in w
    requires Run(m, w).ctl.Next?
    ensures Spells(Run(m, w).m.p, w) && Run(m, w).m.mark.Unmarked?
    decreases |w|
  {
    hide StepByte, Switch, Spells, OnMethod;
    var k := |w| - 1;
    var init, last := w[..k], w[k];
    assert w == init + [last] && last in w;
    RunConcat(m, init, [last]);
    var m1 := Run(m, init).m;
    assert [last][1..] == "";
    if k == 0 {
      assert init == "" && w == [last];
      FirstSpells(Counted(m.p), last);
      if Switch(Counted(m.p), last).ctl.Fail? { StepFails(m, last); } else { StepSwitch(m, last); }
    } else {
      assert forall c | c in init :: c in w;
      NameSpelled(m, init);
      SpellsSwitch(m1.p, init, last);
      if Switch(Counted(m1.p), last).ctl.Fail? { StepFails(m1, last); } else { StepSwitch(m1, last); }
    }
  }

  lemma SpellsSwitch(p: Parser, w: string, ch: char)
    requires Spells(p, w)
    ensures ParsingHeader(p.state)
    ensures var o := Switch(Counted(p), ch);
            !o.ctl.Fail? ==>
              && o.ctl.Next? && o.acts == []
              && (ch != ' ' ==> Spells(o.p, w + [ch]))
              && (ch == ' ' ==> o.p.state.ReqSpacesBeforeUrl? && w == MethodString(o.p.verb))
  {
    hide OnMethod, MethodString;
    MethodByte(Counted(p), w, ch);
    MethodStrings(p.verb);
    if ch == ' ' { SpaceEndsName(Counted(p), w); }
  }

  lemma SpaceEndsName(p: Parser, w: string)
    requires Spells(p, w)
    ensures OnMethod(p, ' ').ctl.Fail? || !OnMethod(p, ' ').p.state.ReqMethod?
  {
    hide MethodString;
    MethodStrings(p.verb);
    if p.index < |w| + 1 <= |MethodString(p.verb)| { assert MethodString(p.verb)[p.index] in MethodString(p.verb); }
  }

  /** The table is recognised exactly: a word and a space take a parser from the start of a message
      to the request target if and only if, within the header budget, the word is a method name, and
      then that method is the one recorded. */
  lemma MethodRecognised(m: Machine, w: string)
    requires m.p.state.StartReq? && m.mark.Unmarked? && w != "" && w[0] != CR && w[0] != LF && ' ' !in w
    requires Affords(m.p, |w| + 1)
    ensures var r := Run(m, w + " ");
            && (r.ctl.Next? ==> r.m.p.state.ReqSpacesBeforeUrl? && MethodString(r.m.p.verb) == w)
            && (r.ctl.Next? <==> exists v :: MethodString(v) == w)
  {
    hide Run, Switch, Spells;
    RunConcat(m, w, " ");
    if Run(m, w).ctl.Next? {
      NameSpelled(m, w);
      var m1 := Run(m, w).m;
      SpellsSwitch(m1.p, w, ' ');
      assert " "[1..] == "";
      RunOne(m1, ' ');
      if Switch(Counted(m1.p), ' ').ctl.Fail? { StepFails(m1, ' '); } else { StepSwitch(m1, ' '); }
    }
    forall v | MethodString(v) == w
      ensures Run(m, w + " ").ctl.Next?
    {
      ReadsMethod(m, v);
    }
  }

  lemma RunOne(m: Machine, ch: char)
    ensures Run(m, [ch]) == var h := StepByte(m, ch);
            match h.ctl case Next => Result(h.m, 1, Next) case Exit => Result(h.m, 1, Exit) case Fail(e) => Result(h.m, 0, Fail(e))
  {
    hide StepByte;
    assert [ch][1..] == "";
    RunEmpty(StepByte(m, ch).m);
  }
}
