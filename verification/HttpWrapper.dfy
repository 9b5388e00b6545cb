/** `CHttpParser`: the object that drives the parser over one buffer and keeps what its callbacks
    were given. */
module HttpWrapper {
  import opened HttpTypes
  import opened HttpMarks
  import opened HttpReads
  import opened HttpTargets
  import opened HttpHeaders
  import opened HttpRequests
  import opened HttpExecute
  import HttpRun

  /** What the callbacks have stored. */
  datatype Stored = Stored(url: string, body: string, lastField: string, headers: map<string, string>, complete: bool)

  /** The effect of one callback. */
  function Called(s: Stored, e: Event): Stored {
    match e
    case Data(Url, t) => s.(url := t)
    case Data(Field, t) => s.(lastField := t)
    case Data(Value, t) => s.(headers := s.headers[s.lastField := t])
    case Data(Body, t) => s.(body := t)
    case MessageComplete => s.(complete := true)
    case _ => s
  }

  function AllCalled(s: Stored, es: seq<Event>): Stored
    decreases es
  {
    if es == [] then s else AllCalled(Called(s, es[0]), es[1..])
  }

  lemma {:induction false} CalledThen(s: Stored, a: seq<Event>, b: seq<Event>)
    ensures AllCalled(s, a + b) == AllCalled(AllCalled(s, a), b)
    decreases |a|
  {
    if a == [] {
      assert a + b == b;
    } else {
      assert (a + b)[1..] == a[1..] + b;
      CalledThen(Called(s, a[0]), a[1..], b);
    }
  }

  // ---------------------------------------------------------------- the header map

  /** A header map with the headers of a request added. */
  function HeaderMap(hs: seq<Header>, m: map<string, string>): map<string, string>
    decreases hs
  {
    if hs == [] then m else HeaderMap(hs[1..], m[hs[0].name := hs[0].value])
  }

  /** Of several headers with the same name the last one counts; other entries stay. */
  lemma {:induction false} LastWins(hs: seq<Header>, m: map<string, string>)
    ensures forall k <- m :: k in HeaderMap(hs, m)
    ensures forall k <- HeaderMap(hs, m) :: k in m || exists i :: 0 <= i < |hs| && hs[i].name == k
    ensures forall k <- m :: (forall i | 0 <= i < |hs| :: hs[i].name != k) ==> HeaderMap(hs, m)[k] == m[k]
    ensures forall i | 0 <= i < |hs| ::
              hs[i].name in HeaderMap(hs, m)
              && ((forall j | i < j < |hs| :: hs[j].name != hs[i].name) ==> HeaderMap(hs, m)[hs[i].name] == hs[i].value)
    decreases |hs|
  {
    if hs != [] {
      var m1, rest := m[hs[0].name := hs[0].value], hs[1..];
      LastWins(rest, m1);
      assert forall i | 0 <= i < |rest| :: rest[i] == hs[i + 1];
      forall k <- m | forall i | 0 <= i < |hs| :: hs[i].name != k
        ensures k in HeaderMap(hs, m) && HeaderMap(hs, m)[k] == m[k]
      {
        assert hs[0].name != k && k in m1 && m1[k] == m[k];
      }
      forall i | 0 <= i < |hs|
        ensures hs[i].name in HeaderMap(hs, m)
        ensures (forall j | i < j < |hs| :: hs[j].name != hs[i].name) ==> HeaderMap(hs, m)[hs[i].name] == hs[i].value
      {
        if i == 0 { assert hs[0].name in m1; } else { assert rest[i - 1] == hs[i]; }
      }
      forall k <- HeaderMap(hs, m)
        ensures k in m || exists i :: 0 <= i < |hs| && hs[i].name == k
      {
        if k !in m && k !in m1 { var i :| 0 <= i < |rest| && rest[i].name == k; assert hs[i + 1].name == k; }
        else if k !in m { assert hs[0].name == k; }
      }
    }
  }

  /** Where a value goes on on the next line, the line replaces what came before. */
  lemma ContinuationReplaces(s: Stored, name: string, value: string, more: string)
    ensures AllCalled(s, [Data(Field, name), Data(Value, value), Data(Value, more)]).headers == s.headers[name := more]
  {
    var a, b, c := Data(Field, name), Data(Value, value), Data(Value, more);
    assert [a, b, c][1..] == [b, c] && [b, c][1..] == [c] && [c][1..] == [];
    assert AllCalled(Called(Called(s, a), b), [c]) == Called(Called(Called(s, a), b), c);
    assert AllCalled(Called(s, a), [b, c]) == AllCalled(Called(Called(s, a), b), [c]);
    assert s.headers[name := value][name := more] == s.headers[name := more];
  }

  // ---------------------------------------------------------------- a request, as stored

  lemma {:induction false} HeadersCalled(s: Stored, hs: seq<Header>)
    ensures var t := AllCalled(s, HeaderEvents(hs)); t == s.(headers := HeaderMap(hs, s.headers), lastField := t.lastField)
    decreases |hs|
  {
    if hs != [] {
      var f, v := Data(Field, hs[0].name), Data(Value, hs[0].value);
      CalledThen(s, LineEvents(hs[0]), HeaderEvents(hs[1..]));
      assert LineEvents(hs[0])[1..] == [v] && [v][1..] == [];
      var s1 := Called(Called(s, f), v);
      assert AllCalled(Called(s, f), [v]) == s1;
      HeadersCalled(s1, hs[1..]);
    }
  }

  /** What the object holds after the callbacks of a request. An empty body makes no callback, and nor does
      what follows CONNECT, so the stored body is then the one from before. */
  predicate HoldsRequest(t: Stored, s: Stored, r: Request) {
    && t.complete && t.url == r.target && t.headers == HeaderMap(r.headers, s.headers)
    && t.body == if r.body == "" || r.start.verb.CONNECT? then s.body else r.body
  }

  lemma RequestCalled(s: Stored, r: Request)
    ensures HoldsRequest(AllCalled(s, RequestEvents(r)), s, r)
  {
    hide HeaderEvents, HeaderMap, AllCalled, LeavesHttp;
    var a, b := [MessageBegin, Data(Url, r.target)], HeaderEvents(r.headers);
    var c, d := [Completed(r.start, LeavesHttp(r.start.verb, r.headers))], [Data(Body, r.body)];
    var e := [MessageComplete];
    CalledThen(s, a, b);
    CalledThen(s, a + b, c);
    OneCalled(s, a[0]);
    assert a == [a[0]] + [a[1]];
    CalledThen(s, [a[0]], [a[1]]);
    OneCalled(Called(s, a[0]), a[1]);
    var s1 := AllCalled(s, a);
    HeadersCalled(s1, r.headers);
    var s2 := AllCalled(s1, b);
    OneCalled(s2, c[0]);
    if r.body == "" || r.start.verb.CONNECT? {
      assert a + b + c + [] + e == a + b + c + e;
      CalledThen(s, a + b + c, e);
      OneCalled(s2, e[0]);
    } else {
      CalledThen(s, a + b + c, d);
      CalledThen(s, a + b + c + d, e);
      OneCalled(s2, d[0]);
      OneCalled(Called(s2, d[0]), e[0]);
    }
  }

  lemma OneCalled(s: Stored, e: Event)
    ensures AllCalled(s, [e]) == Called(s, e)
  {
    assert [e][1..] == [];
  }

  // ---------------------------------------------------------------- the object

  class CHttpParser {
    const parser: HttpParser
    var url: string
    var body: string
    var lastField: string
    var headerValues: map<string, string>
    var complete: bool

    function Holds(): Stored
      reads this
    {
      Stored(url, body, lastField, headerValues, complete)
    }

    constructor ()
      ensures fresh(parser) && parser.Fields() == INITIAL && parser.errno == OK
      ensures Holds() == Stored("", "", "", map[], false)
    {
      parser := new HttpParser();
      url, body, lastField, headerValues, complete := "", "", "", map[], false;
    }

    /** OnUrl, OnHeaderField, OnHeaderValue, OnBody and OnMessageComplete. */
    method Callback(e: Event)
      modifies this
      ensures Holds() == Called(old(Holds()), e)
    {
      match e {
        case Data(kind, text) =>
          match kind {
            case Url => url := text;
            case Field => lastField := text;
            case Value => headerValues := headerValues[lastField := text];
            case Body => body := text;
          }
        case MessageComplete => complete := true;
        case _ =>
      }
    }

    /** Parse one buffer. Unless a message was completed, the parser is left unusable. */
    method Parse(data: string) returns (ret: nat)
      requires |data| <= MAX_BUFFER && ParserInv(parser.Fields())
      modifies this, parser
      ensures old(parser.errno) != OK ==> ret == 0 && parser.errno == INCOMPLETE && Holds() == old(Holds()).(complete := false)
      ensures var r := HttpRun.Execute(old(parser.Fields()), [], data);
              old(parser.errno) == OK && r.errno != HEADER_OVERFLOW ==>
                && Holds() == AllCalled(old(Holds()).(complete := false), r.events)
                && ret == (if complete then r.consumed else 0)
                && parser.errno == (if complete then r.errno else INCOMPLETE)
      ensures forall r: Request ::
                (Legal(r) && data == Print(r) && old(parser.errno) == OK && old(parser.state).StartReq?
                 && Affords(old(parser.Fields()), |Head(r.start, r.target, r.headers)|)) ==>
                && parser.errno == OK && HoldsRequest(Holds(), old(Holds()), r) && parser.verb == r.start.verb
                && parser.state == NextState(r.start.protocol, r.headers) && parser.upgrade == LeavesHttp(r.start.verb, r.headers)
                && ret == if r.start.verb.CONNECT? then |Head(r.start, r.target, r.headers)| else |data|
    {
      hide HttpRun.Execute, ParserInv, AllCalled, Called, Print, Legal, RequestEvents, Head, HeaderMap, Affords, LeavesHttp, KeepsAlive;
      complete := false;
      parser.events := [];
      ghost var was := Holds();
      ghost var spec := HttpRun.Execute(parser.Fields(), [], data);
      forall r: Request | Legal(r) && data == Print(r) && parser.state.StartReq?
          && Affords(parser.Fields(), |Head(r.start, r.target, r.headers)|)
        ensures RequestRead(spec, r, []) && HoldsRequest(AllCalled(was, RequestEvents(r)), was, r)
      {
        RoundTrip(parser.Fields(), [], r);
        RequestCalled(was, r);
      }
      ret := parser.Execute(data);
      label AfterExecute:
      var i := 0;
      CalledNothing(was);
      while i < |parser.events|
        invariant i <= |parser.events| && Holds() == AllCalled(was, parser.events[..i])
        invariant unchanged@AfterExecute(parser)
      {
        CalledThen(was, parser.events[..i], [parser.events[i]]);
        OneCalled(Holds(), parser.events[i]);
        assert parser.events[..i + 1] == parser.events[..i] + [parser.events[i]];
        Callback(parser.events[i]);
        i := i + 1;
      }
      assert parser.events[..i] == parser.events;
      if !complete {
        parser.errno := INCOMPLETE;
        ret := 0;
      }
    }
  }

  lemma CalledNothing(s: Stored)
    ensures AllCalled(s, []) == s
  {}
}
