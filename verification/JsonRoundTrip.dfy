/** Writing a value and reading the text gives the value back, in every layout. */
module JsonRoundTrip {
  import opened Numbers
  import opened HttpTypes
  import opened Options
  import opened Decimals
  import opened JsonValues
  import opened JsonUnicode
  import opened JsonNumbers
  import opened JsonQuoting
  import opened JsonTokens
  import opened JsonParse
  import opened JsonLayout
  import opened JsonSteps
  import opened JsonTrees
  import opened JsonAccepted
  import opened JsonReader
  import opened JsonWriter

  // ---------------------------------------------------------------- what comes back

  function ReadString(s: string, e: Style): string { if e.emitUtf8 then s else Repaired(s) }

  /** The value of a scalar that has been written and read. */
  function ScalarRead(v: Value, e: Style): Value {
    match v
    case UInt(u) => Integer(u)
    case Str(s) => Str(ReadString(s, e))
    case _ => v
  }

  /** A value as it comes back: unsigned integers within the signed range become signed, strings are
      repaired unless UTF-8 was kept. */
  function Normal(v: Value, e: Style): Value {
    match v
    case Arr(a) => Arr(NormalItems(a, e))
    case Obj(ms) => Obj(NormalMembers([], ms, e))
    case _ => ScalarRead(v, e)
  }

  function NormalItems(a: seq<Value>, e: Style): seq<Value> {
    if a == [] then [] else [Normal(a[0], e)] + NormalItems(a[1..], e)
  }

  function NormalMembers(done: seq<Member>, ms: seq<Member>, e: Style): seq<Member>
    decreases ms
  {
    if ms == [] then done
    else NormalMembers(Put(done, ReadString(ms[0].key, e), Normal(ms[0].value, e)), ms[1..], e)
  }

  // ---------------------------------------------------------------- values

  /** A scalar the reader gets back: no double, and null only under its usual name. */
  predicate Printable(v: Value, e: Style) {
    match v
    case Null => e.nullText == "null"
    case Real(_) => false
    case Arr(_) => false
    case Obj(_) => false
    case _ => true
  }

  predicate KeyFits(key: string, e: Style) { |ReadString(key, e)| < KEY_LIMIT }

  /** No doubles, and keys not longer than the reader takes. */
  predicate Writable(v: Value, e: Style) {
    match v
    case Arr(a) => forall i | 0 <= i < |a| :: Writable(a[i], e)
    case Obj(ms) => forall i | 0 <= i < |ms| :: KeyFits(ms[i].key, e) && Writable(ms[i].value, e)
    case _ => Printable(v, e)
  }

  function ValueDepth(v: Value): (d: nat)
    ensures d > 0
  {
    match v
    case Arr(a) => 1 + ArrayDepth(a)
    case Obj(ms) => 1 + ObjectDepth(ms)
    case _ => 1
  }

  function ArrayDepth(a: seq<Value>): nat { if a == [] then 0 else Max(ValueDepth(a[0]), ArrayDepth(a[1..])) }

  function ObjectDepth(ms: seq<Member>): nat { if ms == [] then 0 else Max(ValueDepth(ms[0].value), ObjectDepth(ms[1..])) }

  /** No two keys of an object are read as the same. */
  predicate KeysDistinct(v: Value, e: Style) {
    match v
    case Arr(a) => AllDistinct(a, e)
    case Obj(ms) => MembersDistinct([], ms, e)
    case _ => true
  }

  predicate AllDistinct(a: seq<Value>, e: Style) { a == [] || (KeysDistinct(a[0], e) && AllDistinct(a[1..], e)) }

  predicate MembersDistinct(done: seq<Member>, ms: seq<Member>, e: Style)
    decreases ms
  {
    ms == []
    || (!IsMember(done, ReadString(ms[0].key, e)) && KeysDistinct(ms[0].value, e)
        && MembersDistinct(Put(done, ReadString(ms[0].key, e), Normal(ms[0].value, e)), ms[1..], e))
  }

  // ---------------------------------------------------------------- texts of scalars

  lemma IntIsNumber(i: int)
    ensures IsNumber(IntText(i)) && IntText(i) !in {"null", "true", "false"} && !IsString(IntText(i))
  {
    hide Numeral, Decimal;
    var n: nat := if i < 0 then -i else i;
    NumeralMeans(n);
    var d, t := Numeral(n), IntText(i);
    assert forall j | 0 <= j < |d| :: d[j] in d;
    assert forall j | 1 <= j < |t| :: t[j] == d[j - (if i < 0 then 1 else 0)];
    assert t[0] == '-' || IsNum(t[0]);
    assert t[|t|..] == "" && t[|t|..|t|] == "";
    assert NumberParts(t, |t|, |t|);
  }

  lemma IntRead(i: int, env: Env)
    requires MIN_INT <= i <= MAX_UINT
    ensures AtomOf(IntText(i), env) == Some(Integer(i))
  {
    hide IntText, IsNumber, IsString, IntegerToken, IntegerValue;
    IntIsNumber(i);
    IntegerRoundTrip(i);
  }

  lemma TextRead(s: string, e: Style)
    ensures IsString(StringText(s, e)) && StringOf(StringText(s, e)) == Some(ReadString(s, e))
  {
    hide Quoted, Decoded, Repaired, WellFormed, Escaped;
    var t := StringText(s, e);
    assert t[1..|t| - 1] == Quoted(s, e.emitUtf8);
    QuotedEscaped(s, e.emitUtf8);
    StringRoundTrip(s);
  }

  /** The text of a scalar is read as its value. */
  lemma ScalarMeans(v: Value, e: Style, env: Env)
    requires Printable(v, e)
    ensures AtomOf(ScalarText(v, e), env) == Some(ScalarRead(v, e))
  {
    hide IntText, StringText, IsNumber, NumberOf, ReadString, Escaped, Decoded, StringOf;
    match v
    case Int(i) => IntRead(i, env);
    case UInt(u) => IntRead(u, env);
    case Str(s) => TextRead(s, e); NoWord(StringText(s, e));
    case Null =>
    case Bool(b) =>
  }

  lemma NoWord(t: string)
    requires IsString(t)
    ensures t !in {"null", "true", "false"}
  {}

  // ---------------------------------------------------------------- every layout means the value

  lemma BlankGaps(g: string, f: Features)
    requires Blank(g)
    ensures Gap(g) && ValueGap(g, f) && Passes(g, ",", f)
  {
    hide Gap;
    BlankGap(g);
  }

  lemma PrintedItemsClose(first: bool, items: seq<Item>, f: Features)
    requires first || items != []
    ensures ItemsClose(first, items, false, "", f)
    decreases items
  {
    NoBlanks();
    if |items| > 1 { PrintedItemsClose(false, items[1..], f); }
  }

  lemma {:induction false} PrintedEntriesClose(first: bool, last: string, xs: seq<Entry>, f: Features)
    requires (first || xs != []) && forall i | 0 <= i < |xs| :: xs[i].comma == ","
    ensures EntriesClose(first, last, xs, false, "", f)
    decreases xs
  {
    hide KeyName;
    NoBlanks();
    if |xs| > 1 { PrintedEntriesClose(false, KeyName(xs[0].key), xs[1..], f); }
  }

  /** A layout is the text of a well formed tree that means the value as it comes back. */
  lemma {:induction false} LayoutMeans(n: Node, v: Value, e: Style, env: Env)
    requires Lays(n, v, e) && BlankIn(n) && Writable(v, e)
    ensures Proper(n, env) && Meaning(n, env) == Normal(v, e) && Depth(n) == ValueDepth(v)
    decreases n
  {
    hide ScalarRead, ScalarText, Printable, AtomOf, KeyFits;
    match v
    case Arr(a) => ItemsMean(n.items, a, e, env); PrintedItemsClose(true, n.items, env.f);
    case Obj(ms) => EntriesMean([], n.entries, ms, e, env); PrintedEntriesClose(true, "", n.entries, env.f);
    case _ => ScalarMeans(v, e, env);
  }

  lemma {:induction false} ItemsMean(items: seq<Item>, a: seq<Value>, e: Style, env: Env)
    requires ItemsLay(items, a, e) && (forall i | 0 <= i < |items| :: BlankItem(items[i]))
    requires forall i | 0 <= i < |a| :: Writable(a[i], e)
    ensures ItemsProper(items, env) && ItemsMeaning(items, env) == NormalItems(a, e) && ItemsDepth(items) == ArrayDepth(a)
    decreases items
  {
    hide Lays, Proper, Writable, BlankIn, Meaning, Normal, Depth, ValueDepth, Blank, Gap, ValueGap;
    if a != [] {
      assert BlankItem(items[0]);
      BlankGaps(items[0].before, env.f);
      BlankGaps(items[0].after, env.f);
      LayoutMeans(items[0].node, a[0], e, env);
      ItemsMean(items[1..], a[1..], e, env);
    }
  }

  lemma KeyMeans(key: string, e: Style)
    requires KeyFits(key, e)
    ensures KeyOk(StringText(key, e)) && KeyName(StringText(key, e)) == ReadString(key, e)
  {
    hide StringText, StringOf, ReadString;
    TextRead(key, e);
  }

  lemma {:induction false} EntriesMean(done: seq<Member>, xs: seq<Entry>, ms: seq<Member>, e: Style, env: Env)
    requires EntriesLay(xs, ms, e) && (forall i | 0 <= i < |xs| :: BlankEntry(xs[i]))
    requires forall i | 0 <= i < |ms| :: KeyFits(ms[i].key, e) && Writable(ms[i].value, e)
    ensures EntriesProper(xs, env) && EntriesMeaning(done, xs, env) == NormalMembers(done, ms, e) && EntriesDepth(xs) == ObjectDepth(ms)
    decreases xs
  {
    hide Lays, Proper, Writable, BlankIn, Meaning, Normal, Put, ReadString, Depth, ValueDepth, KeyFits, KeyOk, KeyName, StringText, Blank,
         Gap, ValueGap, Passes;
    if ms != [] {
      assert BlankEntry(xs[0]);
      BlankGaps(xs[0].before, env.f);
      BlankGaps(xs[0].afterColon, env.f);
      BlankGaps(xs[0].after, env.f);
      KeyMeans(ms[0].key, e);
      LayoutMeans(xs[0].node, ms[0].value, e, env);
      EntriesMean(Put(done, ReadString(ms[0].key, e), Normal(ms[0].value, e)), xs[1..], ms[1..], e, env);
    }
  }

  lemma {:induction false} LayoutDiffers(n: Node, v: Value, e: Style, env: Env)
    requires Lays(n, v, e) && BlankIn(n) && Writable(v, e) && KeysDistinct(v, e)
    ensures KeysDiffer(n, env)
    decreases n
  {
    match v
    case Arr(a) => LayoutItemsDiffer(n.items, a, e, env);
    case Obj(ms) => LayoutEntriesDiffer([], n.entries, ms, e, env);
    case _ =>
  }

  lemma {:induction false} LayoutItemsDiffer(items: seq<Item>, a: seq<Value>, e: Style, env: Env)
    requires ItemsLay(items, a, e) && AllDistinct(a, e) && (forall i | 0 <= i < |items| :: BlankItem(items[i]))
    requires forall i | 0 <= i < |a| :: Writable(a[i], e)
    ensures ItemsDiffer(items, env)
    decreases items
  {
    hide Lays, KeysDiffer, KeysDistinct, Writable, BlankIn, Blank;
    if a != [] {
      assert BlankItem(items[0]);
      LayoutDiffers(items[0].node, a[0], e, env);
      LayoutItemsDiffer(items[1..], a[1..], e, env);
    }
  }

  lemma {:induction false} LayoutEntriesDiffer(done: seq<Member>, xs: seq<Entry>, ms: seq<Member>, e: Style, env: Env)
    requires EntriesLay(xs, ms, e) && MembersDistinct(done, ms, e) && (forall i | 0 <= i < |xs| :: BlankEntry(xs[i]))
    requires forall i | 0 <= i < |ms| :: KeyFits(ms[i].key, e) && Writable(ms[i].value, e)
    ensures EntriesDiffer(done, xs, env)
    decreases xs
  {
    hide Lays, KeysDiffer, KeysDistinct, IsMember, Put, ReadString, Normal, Meaning, Writable, BlankIn, KeyFits, KeyName, KeyOk, StringText,
         Blank;
    if ms != [] {
      assert BlankEntry(xs[0]);
      KeyMeans(ms[0].key, e);
      LayoutDiffers(xs[0].node, ms[0].value, e, env);
      LayoutMeans(xs[0].node, ms[0].value, e, env);
      LayoutEntriesDiffer(Put(done, ReadString(ms[0].key, e), Normal(ms[0].value, e)), xs[1..], ms[1..], e, env);
    }
  }

  // ---------------------------------------------------------------- what comes back unchanged

  /** Values that come back exactly: unsigned integers beyond the signed range, strings and keys in
      UTF-8 unless bytes are kept, members in their order. */
  ghost predicate Exact(v: Value, e: Style) {
    match v
    case UInt(u) => u > MAX_INT
    case Str(s) => e.emitUtf8 || WellFormed(s)
    case Arr(a) => forall i | 0 <= i < |a| :: Exact(a[i], e)
    case Obj(ms) => Sorted(ms) && forall i | 0 <= i < |ms| :: (e.emitUtf8 || WellFormed(ms[i].key)) && Exact(ms[i].value, e)
    case _ => true
  }

  lemma ReadExact(s: string, e: Style)
    requires e.emitUtf8 || WellFormed(s)
    ensures ReadString(s, e) == s
  {
    hide Repaired, WellFormed;
    StringRoundTrip(s);
  }

  lemma {:induction false} ExactNormal(v: Value, e: Style)
    requires Exact(v, e)
    ensures Normal(v, e) == v && KeysDistinct(v, e)
    decreases v
  {
    hide ReadString, Sorted;
    match v
    case Str(s) => ReadExact(s, e);
    case Arr(a) => ExactItems(a, e);
    case Obj(ms) => assert [] + ms == ms; ExactMembers([], ms, e);
    case _ =>
  }

  lemma {:induction false} ExactItems(a: seq<Value>, e: Style)
    requires forall i | 0 <= i < |a| :: Exact(a[i], e)
    ensures NormalItems(a, e) == a && AllDistinct(a, e)
    decreases a
  {
    hide Exact, Normal, KeysDistinct;
    if a != [] {
      ExactNormal(a[0], e);
      ExactItems(a[1..], e);
      assert a == [a[0]] + a[1..];
    }
  }

  lemma {:induction false} ExactMembers(done: seq<Member>, ms: seq<Member>, e: Style)
    requires Sorted(done + ms)
    requires forall i | 0 <= i < |ms| :: (e.emitUtf8 || WellFormed(ms[i].key)) && Exact(ms[i].value, e)
    ensures NormalMembers(done, ms, e) == done + ms && MembersDistinct(done, ms, e)
    decreases ms
  {
    hide Exact, Normal, KeysDistinct, WellFormed, ReadString, Put, IsMember, TextLess;
    if ms == [] {
      assert done + ms == done;
    } else {
      var m := ms[0];
      ReadExact(m.key, e);
      ExactNormal(m.value, e);
      assert (done + ms)[|done|] == m && forall j | 0 <= j < |done| :: (done + ms)[j] == done[j];
      PutAtEnd(done, m.key, m.value);
      assert done + [Member(m.key, m.value)] + ms[1..] == done + ms;
      ExactMembers(done + [m], ms[1..], e);
    }
  }

  // ---------------------------------------------------------------- the round trip

  /** What the reader's features ask of a value. */
  predicate Admissible(v: Value, e: Style, f: Features) {
    && ValueDepth(v) <= f.stackLimit && (f.rejectDupKeys ==> KeysDistinct(v, e)) && (f.strictRoot ==> v.Arr? || v.Obj?)
  }

  /** The text printed is accepted, and read as the value as it comes back. */
  lemma PrintedRead(v: Value, c: Settings, env: Env)
    requires White(c) && Writable(v, c.style) && Admissible(v, c.style, env.f)
    ensures var r := ParseDocument(Text(Laid(v, "", c)) + c.ending, env); r.Good? && r.value == Normal(v, c.style)
  {
    hide Lays, BlankIn, Writable, Text, Laid, Meaning, Normal, KeysDistinct, ValueDepth, Depth, Proper, KeysDiffer, Over, ParseDocument,
         Beginning, Blank;
    var n, e := Laid(v, "", c), c.style;
    var text := Text(n) + c.ending;
    NoBlanks();
    BlankGaps("", env.f);
    LaidLays(v, "", c);
    LayoutMeans(n, v, e, env);
    if KeysDistinct(v, e) { LayoutDiffers(n, v, e, env); }
    if env.f.strictRoot { ContainerLayout(n, v, e); }
    TextStarts(n, env);
    assert text[0] == Text(n)[0];
    NoMark(text, env.f);
    assert text[0..|Text(n)|] == Text(n) == "" + Text(n);
    EndOver(text, |Text(n)|, c.ending, env.f);
    TextAccepted(text, "", n, env);
  }

  lemma EndOver(text: string, p: nat, end: string, f: Features)
    requires p <= |text| && text[p..] == end && Blank(end)
    ensures Over(text, p, f)
  {
    hide Blank;
    SpaceEndIs(text, p, end);
  }

  lemma ContainerLayout(n: Node, v: Value, e: Style)
    requires Lays(n, v, e) && (v.Arr? || v.Obj?)
    ensures !n.Atom?
  {}

  /** Printing any value and parsing the text: the parse succeeds, and what it gives is the value up
      to the normal form, whatever was in the variable before. */
  method WriteThenRead(v: Value, c: Settings, env: Env, was: Value) returns (text: string, r: Step, back: Value)
    requires White(c) && Writable(v, c.style) && Admissible(v, c.style, env.f)
    ensures r == Done(true) && back == Normal(v, c.style)
    ensures Exact(v, c.style) ==> back == v
  {
    hide Writable, Text, Laid, Normal, Exact, Admissible, Blank, ParseDocument;
    var writer := new BuiltStyledStreamWriter(c);
    text := writer.Write(v);
    PrintedRead(v, c, env);
    var reader := new OurReader(env);
    r, back := reader.Parse(text, was);
    if Exact(v, c.style) { ExactNormal(v, c.style); }
  }

  // ---------------------------------------------------------------- once is enough

  /** What comes back is exact: writing and reading it again changes nothing. */
  lemma {:induction false} NormalExact(v: Value, e: Style)
    ensures Exact(Normal(v, e), e)
    decreases v
  {
    hide Sorted, WellFormed, Repaired;
    match v
    case Str(s) => StringRoundTrip(s);
    case Arr(a) => NormalItemsExact(a, e);
    case Obj(ms) => NoMembers(); NormalMembersExact([], ms, e);
    case _ =>
  }

  lemma NoMembers()
    ensures Sorted([])
  {}

  lemma {:induction false} NormalItemsExact(a: seq<Value>, e: Style)
    ensures forall i | 0 <= i < |NormalItems(a, e)| :: Exact(NormalItems(a, e)[i], e)
    decreases a
  {
    hide Exact, Normal;
    if a != [] {
      NormalExact(a[0], e);
      NormalItemsExact(a[1..], e);
    }
  }

  ghost predicate ExactMember(m: Member, e: Style) { (e.emitUtf8 || WellFormed(m.key)) && Exact(m.value, e) }

  lemma {:induction false} NormalMembersExact(done: seq<Member>, ms: seq<Member>, e: Style)
    requires Sorted(done) && forall m <- done :: ExactMember(m, e)
    ensures Exact(Obj(NormalMembers(done, ms, e)), e)
    decreases ms
  {
    hide Sorted, Normal, Put, WellFormed, Repaired;
    if ms == [] {
      forall i | 0 <= i < |done|
        ensures (e.emitUtf8 || WellFormed(done[i].key)) && Exact(done[i].value, e)
      {
        assert ExactMember(done[i], e);
      }
    } else {
      var key, v := ReadString(ms[0].key, e), Normal(ms[0].value, e);
      NormalExact(ms[0].value, e);
      StringRoundTrip(ms[0].key);
      PutSorted(done, key, v);
      PutExact(done, key, v, e);
      NormalMembersExact(Put(done, key, v), ms[1..], e);
    }
  }

  lemma PutExact(done: seq<Member>, key: string, v: Value, e: Style)
    requires (forall m <- done :: ExactMember(m, e)) && ExactMember(Member(key, v), e)
    ensures forall m <- Put(done, key, v) :: ExactMember(m, e)
  {
    hide ExactMember, TextEqual, TextLess;
    var r, i := Put(done, key, v), Slot(done, key);
    forall m <- r
      ensures ExactMember(m, e)
    {
      var k :| 0 <= k < |r| && r[k] == m;
      assert m == Member(key, v) || m in done;
    }
  }

  // ---------------------------------------------------------------- what the reader builds

  /** A value that the reader has built can be written, and comes back exactly when bytes are kept. */
  lemma {:induction false} BuiltComesBack(v: Value, d: int, e: Style)
    requires Built(v, d) && RealFree(v) && e.emitUtf8 && e.nullText == "null"
    ensures Exact(v, e) && Writable(v, e) && ValueDepth(v) <= d
    decreases v
  {
    hide Sorted;
    match v
    case Arr(a) => ItemsComeBack(a, d - 1, e);
    case Obj(ms) => MembersComeBack(ms, d - 1, e);
    case _ =>
  }

  lemma {:induction false} ItemsComeBack(a: seq<Value>, d: int, e: Style)
    requires d >= 0 && (forall i | 0 <= i < |a| :: Built(a[i], d)) && AllRealFree(a) && e.emitUtf8 && e.nullText == "null"
    ensures (forall i | 0 <= i < |a| :: Exact(a[i], e) && Writable(a[i], e)) && ArrayDepth(a) <= d
    decreases a
  {
    hide Built, Exact, Writable, ValueDepth, RealFree;
    if a != [] {
      BuiltComesBack(a[0], d, e);
      ItemsComeBack(a[1..], d, e);
      assert forall i | 0 < i < |a| :: a[i] == a[1..][i - 1];
    }
  }

  lemma {:induction false} MembersComeBack(ms: seq<Member>, d: int, e: Style)
    requires d >= 0 && (forall i | 0 <= i < |ms| :: |ms[i].key| < KEY_LIMIT && Built(ms[i].value, d))
    requires MembersRealFree(ms) && e.emitUtf8 && e.nullText == "null"
    ensures forall i | 0 <= i < |ms| :: Exact(ms[i].value, e) && KeyFits(ms[i].key, e) && Writable(ms[i].value, e)
    ensures ObjectDepth(ms) <= d
    decreases ms
  {
    hide Built, Exact, Writable, ValueDepth, RealFree;
    if ms != [] {
      BuiltComesBack(ms[0].value, d, e);
      MembersComeBack(ms[1..], d, e);
      assert forall i | 0 < i < |ms| :: ms[i] == ms[1..][i - 1];
    }
  }

  /** Whatever document is accepted, comments and all: if its value holds no doubles, printing the value
      in any layout that keeps UTF-8 and parsing the text, with the same features, gives the same value. */
  method Reparse(doc: string, c: Settings, env: Env) returns (first: Step, v: Value, text: string, second: Step, back: Value)
    requires White(c) && c.style.emitUtf8 && c.style.nullText == "null"
    ensures first == Done(true) <==> ParseDocument(doc, env).Good?
    ensures first == Done(true) && RealFree(v) ==> second == Done(true) && back == v == ParseDocument(doc, env).value
  {
    hide Built, Exact, Writable, ValueDepth, KeysDistinct, Blank, RealFree, ParseDocument;
    var reader := new OurReader(env);
    first, v := reader.Parse(doc, Null);
    text, second, back := "", first, v;
    if first == Done(true) && RealFree(v) {
      DocumentBuilt(doc, env);
      BuiltComesBack(v, env.f.stackLimit, c.style);
      ExactNormal(v, c.style);
      text, second, back := WriteThenRead(v, c, env, Null);
    }
  }
}
