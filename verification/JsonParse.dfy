/** What the reader makes of a document, as a function of it: a value, a failure, or one of the two
    exceptions. */
module JsonParse {
  import opened HttpTypes
  import opened Options
  import opened JsonValues
  import opened JsonUnicode
  import opened JsonNumbers
  import opened JsonQuoting
  import opened JsonTokens

  /** The reader's features, and the C library's conversions of doubles. */
  datatype Env = Env(f: Features, double: string -> Option<Double>, doubleText: Double -> string)

  datatype Exception = StackLimitExceeded | KeyTooLong

  /** A value and where it ends, errors, or an exception. */
  datatype Outcome = Good(value: Value, end: nat) | Bad | Throws(exception: Exception)

  /** The longest key the reader takes. */
  const KEY_LIMIT := 0x4000_0000

  const NAN := Double(0x7FF8_0000_0000_0000)
  const INFINITY := Double(0x7FF0_0000_0000_0000)
  const MINUS_INFINITY := Double(0xFFF0_0000_0000_0000)

  // ---------------------------------------------------------------- scalars

  function IntegerOf(t: string): Option<Value> {
    if IntegerToken(t) && MIN_INT <= IntegerValue(t) <= MAX_UINT then Some(Integer(IntegerValue(t))) else None
  }

  /** An integer if there is one, otherwise a double. */
  function NumberOf(t: string, env: Env): (r: Option<Value>)
    ensures r.Some? ==> r.value.Int? || r.value.UInt? || r.value.Real?
  {
    if IntegerOf(t).Some? then IntegerOf(t)
    else var d := env.double(t); if d.None? then None else Some(Real(d.value))
  }

  /** `asString` on a number. */
  function NumberText(v: Value, env: Env): string
    requires v.Int? || v.UInt? || v.Real?
  {
    match v
    case Int(i) => IntText(i)
    case UInt(u) => IntText(u)
    case Real(d) => env.doubleText(d)
  }

  /** What is between the quotes of a string token. */
  function Inner(doc: string, t: Token): string
    requires t.start + 2 <= t.end <= |doc|
  {
    doc[t.start + 1..t.end - 1]
  }

  function GoodIf(v: Option<Value>, end: nat): Outcome { if v.Some? then Good(v.value, end) else Bad }

  /** The value of a token that is one by itself. Where a null may be dropped, a separator is put back. */
  function ParseScalar(doc: string, t: Token, env: Env): (r: Outcome)
    requires t.start <= t.end <= |doc| && (t.kind == StringToken ==> t.start + 2 <= t.end) && (t.kind != EndOfStream ==> t.start < t.end)
    ensures r.Good? ==> t.start <= r.end <= t.end && !r.value.Arr? && !r.value.Obj?
  {
    match t.kind
    case NumberToken => GoodIf(NumberOf(doc[t.start..t.end], env), t.end)
    case StringToken =>
      var s := Decoded(Inner(doc, t));
      if s.None? then Bad else Good(Str(s.value), t.end)
    case TrueToken => Good(Bool(true), t.end)
    case FalseToken => Good(Bool(false), t.end)
    case NullToken => Good(Null, t.end)
    case NanToken => Good(Real(NAN), t.end)
    case PosInf => Good(Real(INFINITY), t.end)
    case NegInf => Good(Real(MINUS_INFINITY), t.end)
    case ArraySeparator | ObjectEnd | ArrayEnd =>
      if env.f.allowDroppedNullPlaceholders then Good(Null, t.end - 1) else Bad
    case _ => Bad
  }

  // ---------------------------------------------------------------- values

  /** The name of a member; none for a token that is no name. */
  function NameOf(doc: string, t: Token, env: Env): Option<string>
    requires t.start <= t.end <= |doc| && (t.kind == StringToken ==> t.start + 2 <= t.end)
  {
    match t.kind
    case StringToken => Decoded(Inner(doc, t))
    case NumberToken =>
      if !env.f.allowNumericKeys then None
      else
        var v := NumberOf(doc[t.start..t.end], env);
        if v.None? then None else Some(NumberText(v.value, env))
    case _ => None
  }

  /** The token after a member; none if the object is not well formed there. After a comment, whatever
      comes next passes for a comma. */
  function MemberEnd(doc: string, p: nat, f: Features): (r: Option<Token>)
    requires p <= |doc|
    ensures r.Some? ==> p < r.value.end <= |doc|
  {
    var t := Lex(doc, p, f);
    match t.kind
    case ObjectEnd | ArraySeparator => Some(t)
    case CommentToken => Some(AfterComments(doc, t.end, f))
    case _ => None
  }

  /** The value at `p`, which may be nested `room` deep. */
  function ParseValue(doc: string, p: nat, room: int, env: Env): (r: Outcome)
    requires p <= |doc|
    ensures r.Good? ==> p <= r.end <= |doc|
    decreases |doc| - p, 0
  {
    if room <= 0 then Throws(StackLimitExceeded)
    else
      var t := ValueToken(doc, p, env.f);
      if t.kind == ObjectBegin then ParseMembers(doc, t.end, room, [], "", env)
      else if t.kind == ArrayBegin then ParseItems(doc, t.end, room, [], env)
      else ParseScalar(doc, t, env)
  }

  /** An array from `p` on, after some items. */
  function ParseItems(doc: string, p: nat, room: int, items: seq<Value>, env: Env): (r: Outcome)
    requires p <= |doc|
    ensures r.Good? ==> p <= r.end <= |doc|
    decreases |doc| - p, 1
  {
    var q := SpaceEnd(doc, p);
    if CharAt(doc, q) == ']' && (items == [] || (env.f.allowTrailingCommas && !env.f.allowDroppedNullPlaceholders)) then
      Good(Arr(items), q + 1)
    else
      match ParseValue(doc, q, room - 1, env)
      case Bad => Bad
      case Throws(x) => Throws(x)
      case Good(v, e) =>
        var t := AfterComments(doc, e, env.f);
        if t.kind == ArrayEnd then Good(Arr(items + [v]), t.end)
        else if t.kind == ArraySeparator then ParseItems(doc, t.end, room, items + [v], env)
        else Bad
  }

  /** An object from `p` on, after some members, the last of that name. */
  function ParseMembers(doc: string, p: nat, room: int, ms: seq<Member>, last: string, env: Env): (r: Outcome)
    requires p <= |doc|
    ensures r.Good? ==> p <= r.end <= |doc|
    decreases |doc| - p, 1
  {
    var t := AfterComments(doc, p, env.f);
    if t.kind == ObjectEnd && (last == "" || env.f.allowTrailingCommas) then Good(Obj(ms), t.end)
    else
      var name := NameOf(doc, t, env);
      if name.None? then Bad
      else if |name.value| >= KEY_LIMIT then Throws(KeyTooLong)
      else if env.f.rejectDupKeys && IsMember(ms, name.value) then Bad
      else
        var colon := Lex(doc, t.end, env.f);
        if colon.kind != MemberSeparator then Bad
        else
          match ParseValue(doc, colon.end, room - 1, env)
          case Bad => Bad
          case Throws(x) => Throws(x)
          case Good(v, e) =>
            var next := MemberEnd(doc, e, env.f);
            if next.None? then Bad
            else if next.value.kind == ObjectEnd then Good(Obj(Put(ms, name.value, v)), next.value.end)
            else ParseMembers(doc, next.value.end, room, Put(ms, name.value, v), name.value, env)
  }

  // ---------------------------------------------------------------- documents

  const BOM := [0xEF as char, 0xBB as char, 0xBF as char]

  function Beginning(doc: string, f: Features): (p: nat)
    ensures p <= |doc|
  {
    if f.skipBom && Spells(doc, 0, BOM) then 3 else 0
  }

  /** The conditions on a document whose value has been read up to `p`. */
  predicate Finished(doc: string, v: Value, p: nat, f: Features)
    requires p <= |doc|
  {
    (f.failIfExtra ==> ValueToken(doc, p, f).kind == EndOfStream) && (f.strictRoot ==> v.Arr? || v.Obj?)
  }

  /** The whole document. */
  function ParseDocument(doc: string, env: Env): Outcome {
    match ParseValue(doc, Beginning(doc, env.f), env.f.stackLimit, env)
    case Bad => Bad
    case Throws(x) => Throws(x)
    case Good(v, e) => if Finished(doc, v, e, env.f) then Good(v, e) else Bad
  }

  // ---------------------------------------------------------------- what the reader lets pass

  /** No comment is skipped here that is not allowed. */
  predicate CommentKept(doc: string, p: nat, f: Features)
    requires p <= |doc|
  {
    f.allowComments || Lex(doc, p, f).kind != CommentToken
  }

  /** While the value at `p` is read, no token but a comma or a brace comes after a comment after a member;
      no brace comes after a comma without the feature for it; and no comment is skipped that is not
      allowed. */
  predicate ValueKept(doc: string, p: nat, room: int, env: Env)
    requires p <= |doc|
    decreases |doc| - p, 0
  {
    room > 0 ==>
      var t := ValueToken(doc, p, env.f);
      && (t.kind == ObjectBegin ==> MembersKept(doc, t.end, room, [], "", env))
      && (t.kind == ArrayBegin ==> ItemsKept(doc, t.end, room, [], env))
  }

  predicate ItemsKept(doc: string, p: nat, room: int, items: seq<Value>, env: Env)
    requires p <= |doc|
    decreases |doc| - p, 1
  {
    var q := SpaceEnd(doc, p);
    if CharAt(doc, q) == ']' && (items == [] || (env.f.allowTrailingCommas && !env.f.allowDroppedNullPlaceholders)) then true
    else
      && ValueKept(doc, q, room - 1, env)
      && match ParseValue(doc, q, room - 1, env)
         case Good(v, e) =>
           var t := AfterComments(doc, e, env.f);
           CommentKept(doc, e, env.f) && (t.kind == ArraySeparator ==> ItemsKept(doc, t.end, room, items + [v], env))
         case _ => true
  }

  predicate MembersKept(doc: string, p: nat, room: int, ms: seq<Member>, last: string, env: Env)
    requires p <= |doc|
    decreases |doc| - p, 1
  {
    var t := AfterComments(doc, p, env.f);
    && CommentKept(doc, p, env.f)
    && if t.kind == ObjectEnd && (last == "" || env.f.allowTrailingCommas) then ms == [] || env.f.allowTrailingCommas
       else
         var name, colon := NameOf(doc, t, env), Lex(doc, t.end, env.f);
         name.Some? && colon.kind == MemberSeparator ==>
           && ValueKept(doc, colon.end, room - 1, env)
           && match ParseValue(doc, colon.end, room - 1, env)
              case Good(v, e) =>
                var next := MemberEnd(doc, e, env.f);
                && CommentKept(doc, e, env.f)
                && (next.Some? && next.value.kind != ObjectEnd ==>
                      && next.value.kind == ArraySeparator
                      && MembersKept(doc, next.value.end, room, Put(ms, name.value, v), name.value, env))
              case _ => true
  }

  predicate DocumentKept(doc: string, env: Env) { ValueKept(doc, Beginning(doc, env.f), env.f.stackLimit, env) }

  // ---------------------------------------------------------------- what is built

  /** What the reader builds: objects in the order of their keys, unsigned integers only beyond the
      signed range, keys within their limit, nested no deeper than `d`. */
  predicate Built(v: Value, d: int) {
    d >= 1 &&
    match v
    case UInt(u) => u > MAX_INT
    case Arr(a) => forall i | 0 <= i < |a| :: Built(a[i], d - 1)
    case Obj(ms) => Sorted(ms) && forall i | 0 <= i < |ms| :: |ms[i].key| < KEY_LIMIT && Built(ms[i].value, d - 1)
    case _ => true
  }

  lemma BuiltItem(a: seq<Value>, v: Value, d: int)
    requires Built(Arr(a), d) && Built(v, d - 1)
    ensures Built(Arr(a + [v]), d)
  {}

  lemma BuiltMember(ms: seq<Member>, key: string, v: Value, d: int)
    requires Built(Obj(ms), d) && Built(v, d - 1) && |key| < KEY_LIMIT
    ensures Built(Obj(Put(ms, key, v)), d)
  {
    hide TextLess, TextEqual;
    PutSorted(ms, key, v);
  }

  lemma BuiltEmpty(d: int)
    requires d >= 1
    ensures Built(Arr([]), d) && Built(Obj([]), d)
  {
    hide TextLess;
  }

  lemma {:induction false} ValueBuilt(doc: string, p: nat, room: int, env: Env)
    requires p <= |doc|
    ensures var r := ParseValue(doc, p, room, env); r.Good? ==> Built(r.value, room)
    decreases |doc| - p, 0
  {
    hide Built, ParseItems, ParseMembers, ParseScalar, ValueToken;
    if room > 0 {
      var t := ValueToken(doc, p, env.f);
      if t.kind == ObjectBegin {
        BuiltEmpty(room);
        MembersBuilt(doc, t.end, room, [], "", env);
      } else if t.kind == ArrayBegin {
        BuiltEmpty(room);
        ItemsBuilt(doc, t.end, room, [], env);
      } else {
        ScalarBuilt(doc, t, room, env);
      }
    }
  }

  lemma ScalarBuilt(doc: string, t: Token, room: int, env: Env)
    requires t.start <= t.end <= |doc| && (t.kind == StringToken ==> t.start + 2 <= t.end) && (t.kind != EndOfStream ==> t.start < t.end)
    requires room > 0
    ensures var r := ParseScalar(doc, t, env); r.Good? ==> Built(r.value, room)
  {
    hide IntegerToken, IntegerValue, Decoded;
  }

  lemma {:induction false} ItemsBuilt(doc: string, p: nat, room: int, items: seq<Value>, env: Env)
    requires p <= |doc| && Built(Arr(items), room)
    ensures var r := ParseItems(doc, p, room, items, env); r.Good? ==> Built(r.value, room)
    decreases |doc| - p, 1
  {
    hide Built, ParseValue, AfterComments, SpaceEnd;
    var q := SpaceEnd(doc, p);
    ValueBuilt(doc, q, room - 1, env);
    var r := ParseValue(doc, q, room - 1, env);
    if r.Good? {
      BuiltItem(items, r.value, room);
      var t := AfterComments(doc, r.end, env.f);
      if t.kind == ArraySeparator { ItemsBuilt(doc, t.end, room, items + [r.value], env); }
    }
  }

  lemma {:induction false} MembersBuilt(doc: string, p: nat, room: int, ms: seq<Member>, last: string, env: Env)
    requires p <= |doc| && Built(Obj(ms), room)
    ensures var r := ParseMembers(doc, p, room, ms, last, env); r.Good? ==> Built(r.value, room)
    decreases |doc| - p, 1
  {
    hide Built, ParseValue, AfterComments, Lex, NameOf, Put, MemberEnd, IsMember;
    var t := AfterComments(doc, p, env.f);
    var name, colon := NameOf(doc, t, env), Lex(doc, t.end, env.f);
    if name.Some? && |name.value| < KEY_LIMIT && colon.kind == MemberSeparator {
      ValueBuilt(doc, colon.end, room - 1, env);
      var r := ParseValue(doc, colon.end, room - 1, env);
      if r.Good? {
        BuiltMember(ms, name.value, r.value, room);
        var next := MemberEnd(doc, r.end, env.f);
        if next.Some? && next.value.kind != ObjectEnd {
          MembersBuilt(doc, next.value.end, room, Put(ms, name.value, r.value), name.value, env);
        }
      }
    }
  }

  /** Every document that is accepted gives a value in order, no deeper than the stack limit. */
  lemma DocumentBuilt(doc: string, env: Env)
    ensures var r := ParseDocument(doc, env);
            r.Good? ==> Built(r.value, env.f.stackLimit) && (env.f.strictRoot ==> r.value.Arr? || r.value.Obj?)
  {
    hide Built, ParseValue;
    ValueBuilt(doc, Beginning(doc, env.f), env.f.stackLimit, env);
  }
}
