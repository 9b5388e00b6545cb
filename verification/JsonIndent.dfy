/** What the printed text looks like: which arrays go on one line, and how far each line is indented. */
module JsonIndent {
  import opened HttpTypes
  import opened Decimals
  import opened JsonValues
  import opened JsonUnicode
  import opened JsonNumbers
  import opened JsonQuoting
  import opened JsonTokens
  import opened JsonLayout
  import opened JsonWriter

  function Copies(s: string, n: nat): string { if n == 0 then "" else Copies(s, n - 1) + s }

  /** A line break, and `d` times the indentation; nothing if there is none. */
  function Break(d: nat, c: Settings): string { if c.indentation == "" then "" else "\n" + Copies(c.indentation, d) }

  function Blanks(c: Settings): string { if c.indentation == "" then "" else " " }

  /** A value without anything inside. */
  predicate Flat(v: Value) { !(v.Arr? && v.items != []) && !(v.Obj? && v.members != []) }

  function FlatText(v: Value, c: Settings): string
    requires Flat(v)
  {
    if v.Arr? then "[]" else if v.Obj? then "{}" else ScalarText(v, c.style)
  }

  function Joined(a: seq<Value>, c: Settings): string
    requires forall v <- a :: Flat(v)
  {
    if a == [] then "" else if |a| == 1 then FlatText(a[0], c)
    else Joined(a[..|a| - 1], c) + ", " + FlatText(a[|a| - 1], c)
  }

  /** An array goes on one line if comments are off, it has few enough items, there is nothing inside them, and
      the line, spaces included, is shorter than 74 characters. Numbers are taken to 32 bits. */
  predicate OneLine(a: seq<Value>, c: Settings) {
    && !c.allComments && |a| * 3 % 0x1_0000_0000 < 74 && (forall v <- a :: Flat(v))
    && |"[ " + Joined(a, c) + " ]"| % 0x1_0000_0000 < 74
  }

  /** A value that takes several lines. */
  predicate Broken(v: Value, c: Settings) { (v.Arr? && v.items != [] && !OneLine(v.items, c)) || (v.Obj? && v.members != []) }

  /** An item on the line of the others. */
  predicate InRow(i: Item, last: bool, c: Settings) { i.before == Blanks(c) && i.after == if last then Blanks(c) else "" }

  /** An item on a line of its own, in an array at depth `d`; the bracket follows the last one. */
  predicate OnLine(i: Item, last: bool, d: nat, c: Settings) {
    i.before == Break(d + 1, c) && i.after == if last then Break(d, c) else ""
  }

  /** The same for a member; its value may begin on a further line. */
  predicate MemberOnLine(x: Entry, m: Member, last: bool, d: nat, c: Settings) {
    && x.before == Break(d + 1, c) && x.key == StringText(m.key, c.style) && x.beforeColon == c.beforeColon
    && x.afterColon == c.afterColon + (if Broken(m.value, c) then Break(d + 1, c) else "")
    && x.after == (if last then Break(d, c) else "") && x.comma == ","
  }

  /** `n` is the value at depth `d`, laid out as it should be. */
  predicate Indented(n: Node, v: Value, d: nat, c: Settings)
    decreases n
  {
    match v
    case Arr(a) =>
      && n.List? && !n.trail && n.rest == "" && |n.items| == |a|
      && (forall i | 0 <= i < |a| ::
            if OneLine(a, c) then InRow(n.items[i], i == |a| - 1, c) && Indented(n.items[i].node, a[i], d, c)
            else OnLine(n.items[i], i == |a| - 1, d, c) && Indented(n.items[i].node, a[i], d + 1, c))
    case Obj(ms) =>
      && n.Dict? && !n.trail && n.rest == "" && |n.entries| == |ms|
      && (forall i | 0 <= i < |ms| ::
            MemberOnLine(n.entries[i], ms[i], i == |ms| - 1, d, c) && Indented(n.entries[i].node, ms[i].value, d + 1, c))
    case _ => n == Atom(ScalarText(v, c.style))
  }

  // ---------------------------------------------------------------- which arrays go on one line

  lemma FlatIsSimple(v: Value, c: Settings)
    ensures Flat(v) <==> Simple(v)
    ensures Flat(v) ==> FlatText(v, c) == Text(SimpleNode(v, c))
  {
    EmptyText();
  }

  lemma U32Sum(x: int, y: int)
    ensures (x % 0x1_0000_0000 + y) % 0x1_0000_0000 == (x + y) % 0x1_0000_0000
  {}

  lemma ShorterSlice(a: seq<Value>, k: nat)
    requires 1 <= k <= |a|
    ensures a[..k][..k - 1] == a[..k - 1]
  {}

  /** The length that is added up is that of the line. */
  lemma {:induction false} LineLengthIs(a: seq<Value>, k: nat, c: Settings)
    requires 1 <= k <= |a| && forall v <- a :: Flat(v)
    ensures forall v <- a[..k] :: Flat(v)
    ensures LineLength(a, k, c) == (4 + (|a| - 1) * 2 + |Joined(a[..k], c)| - (k - 1) * 2) % 0x1_0000_0000
    decreases k
  {
    hide FlatText, Text, SimpleNode;
    FlatIsSimple(a[k - 1], c);
    assert a[..k][|a[..k]| - 1] == a[k - 1] && a[k - 1] in a;
    assert forall v <- a[..k] :: v in a;
    var t := |FlatText(a[k - 1], c)|;
    if k == 1 {
      assert LineLength(a, 0, c) == U32(4 + (|a| - 1) * 2);
      U32Sum(4 + (|a| - 1) * 2, t);
    } else {
      LineLengthIs(a, k - 1, c);
      ShorterSlice(a, k);
      U32Sum(4 + (|a| - 1) * 2 + |Joined(a[..k - 1], c)| - (k - 2) * 2, t);
    }
  }

  lemma OneLineIs(a: seq<Value>, c: Settings)
    requires a != []
    ensures OneLine(a, c) <==> !Multiline(a, c)
  {
    hide Joined, LineLength, Simple, Flat;
    forall v: Value
      ensures Flat(v) <==> Simple(v)
    {
      FlatIsSimple(v, c);
    }
    if forall i | 0 <= i < |a| :: Simple(a[i]) {
      assert forall v <- a :: Flat(v);
      LineLengthIs(a, |a|, c);
      assert a[..|a|] == a;
    } else {
      var i :| 0 <= i < |a| && !Simple(a[i]);
      assert a[i] in a && !Flat(a[i]);
    }
  }

  // ---------------------------------------------------------------- the indentation

  lemma BreakIs(d: nat, c: Settings)
    ensures NewLine(Copies(c.indentation, d), c) == Break(d, c) && Space(c) == Blanks(c)
    ensures Copies(c.indentation, d) + c.indentation == Copies(c.indentation, d + 1)
  {}

  lemma BrokenIs(v: Value, d: nat, c: Settings)
    ensures Before(v, Copies(c.indentation, d), c) == if Broken(v, c) then Break(d, c) else ""
  {
    hide OneLine, Multiline;
    BreakIs(d, c);
    if v.Arr? && v.items != [] { OneLineIs(v.items, c); }
  }

  lemma {:induction false} LineAt(a: seq<Value>, ind: string, c: Settings, i: nat)
    requires i < |a|
    ensures LaidLines(a, ind, c)[i] == Item(NewLine(ind, c), Laid(a[i], ind, c), "")
    decreases |a|
  {
    hide Laid, NewLine;
    if i < |a| - 1 { LineAt(a[..|a| - 1], ind, c, i); }
  }

  lemma {:induction false} RowAt(a: seq<Value>, c: Settings, i: nat)
    requires i < |a|
    ensures LaidRow(a, c)[i] == Item(Space(c), SimpleNode(a[i], c), "")
    decreases |a|
  {
    hide SimpleNode;
    if i < |a| - 1 { RowAt(a[..|a| - 1], c, i); }
  }

  lemma {:induction false} MemberAt(ms: seq<Member>, ind: string, c: Settings, i: nat)
    requires i < |ms|
    ensures LaidMembers(ms, ind, c)[i] == LaidEntry(ms[i], ind, c)
    decreases |ms|
  {
    hide LaidEntry;
    if i < |ms| - 1 { MemberAt(ms[..|ms| - 1], ind, c, i); }
  }

  lemma FlatIndented(v: Value, d: nat, c: Settings)
    requires Flat(v)
    ensures Indented(SimpleNode(v, c), v, d, c)
  {}

  lemma ItemClosed(items: seq<Item>, blank: string, i: nat)
    requires i < |items|
    ensures ItemsClosed(items, blank)[i] == if i == |items| - 1 then items[i].(after := items[i].after + blank) else items[i]
  {}

  lemma EntryClosed(xs: seq<Entry>, blank: string, i: nat)
    requires i < |xs|
    ensures EntriesClosed(xs, blank)[i] == if i == |xs| - 1 then xs[i].(after := xs[i].after + blank) else xs[i]
  {}

  lemma RowIndented(a: seq<Value>, d: nat, c: Settings)
    requires a != [] && OneLine(a, c)
    ensures Indented(List(ItemsClosed(LaidRow(a, c), Space(c)), false, ""), Arr(a), d, c)
  {
    hide OneLine, SimpleNode, ItemsClosed, LaidRow, Flat;
    BreakIs(d, c);
    forall i | 0 <= i < |a|
      ensures var j := ItemsClosed(LaidRow(a, c), Space(c))[i]; InRow(j, i == |a| - 1, c) && Indented(j.node, a[i], d, c)
    {
      RowAt(a, c, i);
      ItemClosed(LaidRow(a, c), Space(c), i);
      assert "" + Space(c) == Space(c);
      assert Flat(a[i]) by { AllFlat(a, c); assert a[i] in a; }
      FlatIndented(a[i], d, c);
    }
  }

  lemma AllFlat(a: seq<Value>, c: Settings)
    requires OneLine(a, c)
    ensures forall v <- a :: Flat(v)
  {}

  lemma {:induction false} LinesIndented(a: seq<Value>, d: nat, c: Settings)
    requires a != [] && !OneLine(a, c)
    ensures Indented(List(ItemsClosed(LaidLines(a, Copies(c.indentation, d + 1), c), Break(d, c)), false, ""), Arr(a), d, c)
    decreases a, 1
  {
    hide OneLine, Laid, ItemsClosed, LaidLines;
    var lines := LaidLines(a, Copies(c.indentation, d + 1), c);
    BreakIs(d + 1, c);
    forall i | 0 <= i < |a|
      ensures var j := ItemsClosed(lines, Break(d, c))[i]; OnLine(j, i == |a| - 1, d, c) && Indented(j.node, a[i], d + 1, c)
    {
      LineAt(a, Copies(c.indentation, d + 1), c, i);
      ItemClosed(lines, Break(d, c), i);
      assert "" + Break(d, c) == Break(d, c);
      LaidIndented(a[i], d + 1, c);
    }
  }

  lemma {:induction false} MembersIndented(ms: seq<Member>, d: nat, c: Settings)
    requires ms != []
    ensures Indented(Dict(EntriesClosed(LaidMembers(ms, Copies(c.indentation, d + 1), c), Break(d, c)), false, ""), Obj(ms), d, c)
    decreases ms, 1
  {
    hide Laid, EntriesClosed, LaidMembers, Before, Broken, StringText;
    var xs := LaidMembers(ms, Copies(c.indentation, d + 1), c);
    BreakIs(d + 1, c);
    forall i | 0 <= i < |ms|
      ensures var x := EntriesClosed(xs, Break(d, c))[i];
              MemberOnLine(x, ms[i], i == |ms| - 1, d, c) && Indented(x.node, ms[i].value, d + 1, c)
    {
      MemberAt(ms, Copies(c.indentation, d + 1), c, i);
      EntryClosed(xs, Break(d, c), i);
      assert "" + Break(d, c) == Break(d, c);
      BrokenIs(ms[i].value, d + 1, c);
      LaidIndented(ms[i].value, d + 1, c);
    }
  }

  /** Every value is printed as it should look, at every depth. */
  lemma {:induction false} LaidIndented(v: Value, d: nat, c: Settings)
    ensures Indented(Laid(v, Copies(c.indentation, d), c), v, d, c)
    decreases v, 2
  {
    hide OneLine, Multiline, LaidLines, LaidRow, LaidMembers, ItemsClosed, EntriesClosed, SimpleNode, Indented, NewLine, Space;
    FlatIsSimple(v, c);
    BreakIs(d, c);
    if Flat(v) {
      FlatIndented(v, d, c);
    } else {
      match v {
        case Arr(a) =>
          OneLineIs(a, c);
          if OneLine(a, c) { RowIndented(a, d, c); } else { LinesIndented(a, d, c); }
        case Obj(ms) => MembersIndented(ms, d, c);
      }
    }
  }

  // ---------------------------------------------------------------- without indentation

  /** The settings have no line breaks of their own. */
  ghost predicate Unbroken(c: Settings) {
    && '\n' !in c.beforeColon && '\n' !in c.afterColon && '\n' !in c.style.nullText
    && forall d :: '\n' !in c.style.realText(d)
  }

  lemma QuotedUnbroken(s: string, e: Style)
    ensures '\n' !in StringText(s, e)
  {
    QuotationUnbroken(s, e.emitUtf8);
  }

  lemma {:induction false} QuotationUnbroken(s: string, emitUtf8: bool)
    ensures '\n' !in Quoted(s, emitUtf8)
    decreases |s|
  {
    hide FromUtf8, QuotePoint, QuoteByte;
    if s != "" {
      if emitUtf8 {
        ByteUnbroken(s[0]);
        QuotationUnbroken(s[1..], true);
      } else {
        var p := FromUtf8(s);
        PointUnbroken(p.cp);
        QuotationUnbroken(s[p.len..], false);
      }
    }
  }

  lemma HexUnbroken(x: nat)
    ensures '\n' !in Escape(x)
  {
    assert forall d: nat | d < 16 :: HexChar(d) != '\n';
  }

  lemma ByteUnbroken(c: char)
    ensures '\n' !in QuoteByte(c)
  {
    hide Escape;
    HexUnbroken(c as int);
  }

  lemma PointUnbroken(cp: nat)
    ensures '\n' !in QuotePoint(cp)
  {
    hide Escape;
    HexUnbroken(cp);
    if cp >= 0x10000 {
      HexUnbroken(0xD800 + (cp - 0x10000) / 1024 % 1024);
      HexUnbroken(0xDC00 + (cp - 0x10000) % 1024);
    }
  }

  lemma ScalarUnbroken(v: Value, c: Settings)
    requires Unbroken(c)
    ensures '\n' !in ScalarText(v, c.style)
  {
    hide StringText, IntText;
    match v
    case Str(s) => QuotedUnbroken(s, c.style);
    case Int(i) => IntUnbroken(i);
    case UInt(u) => IntUnbroken(u);
    case Real(d) =>
    case Bool(b) =>
    case Null =>
    case _ =>
  }

  lemma IntUnbroken(i: int)
    ensures '\n' !in IntText(i)
  {
    hide Numeral;
    var n: nat := if i < 0 then -i else i;
    NumeralMeans(n);
    assert !IsNum('\n') && forall c <- Numeral(n) :: IsNum(c);
  }

  lemma {:induction false} ItemsUnbroken(items: seq<Item>)
    requires forall i <- items :: '\n' !in ItemText(i)
    ensures '\n' !in InItems(items, false, "")
    decreases items
  {
    hide ItemText;
    if items != [] {
      assert items[0] in items && forall i <- items[1..] :: i in items;
      ItemsUnbroken(items[1..]);
    }
  }

  lemma {:induction false} EntriesUnbroken(xs: seq<Entry>)
    requires forall x <- xs :: '\n' !in EntryText(x) && x.comma == ","
    ensures '\n' !in InEntries(xs, false, "")
    decreases xs
  {
    hide EntryText;
    if xs != [] {
      assert xs[0] in xs && forall x <- xs[1..] :: x in xs;
      EntriesUnbroken(xs[1..]);
    }
  }

  /** Without indentation, no line break is printed. */
  lemma {:induction false} IndentedUnbroken(n: Node, v: Value, d: nat, c: Settings)
    requires Indented(n, v, d, c) && c.indentation == "" && Unbroken(c)
    ensures '\n' !in Text(n)
    decreases n
  {
    hide OneLine, Broken, StringText, ScalarText, Unbroken, InItems, InEntries;
    match v
    case Arr(a) =>
      forall i <- n.items
        ensures '\n' !in ItemText(i)
      {
        var k :| 0 <= k < |a| && n.items[k] == i;
        if OneLine(a, c) { IndentedUnbroken(i.node, a[k], d, c); } else { IndentedUnbroken(i.node, a[k], d + 1, c); }
        NoBreaks(c);
      }
      ItemsUnbroken(n.items);
    case Obj(ms) =>
      forall x <- n.entries
        ensures '\n' !in EntryText(x) && x.comma == ","
      {
        var k :| 0 <= k < |ms| && n.entries[k] == x;
        assert MemberOnLine(x, ms[k], k == |ms| - 1, d, c);
        IndentedUnbroken(x.node, ms[k].value, d + 1, c);
        QuotedUnbroken(ms[k].key, c.style);
        NoBreaks(c);
      }
      EntriesUnbroken(n.entries);
    case _ => ScalarUnbroken(v, c);
  }

  lemma NoBreaks(c: Settings)
    requires c.indentation == "" && Unbroken(c)
    ensures '\n' !in c.beforeColon && '\n' !in c.afterColon && Blanks(c) == ""
    ensures forall d: nat :: Break(d, c) == ""
  {
    forall d: nat
      ensures Break(d, c) == ""
    {
      assert c.indentation == "";
    }
  }

  /** The text of `write` is the value as it should look, and has no line break without indentation. */
  lemma WrittenIndented(v: Value, c: Settings)
    ensures Indented(Laid(v, "", c), v, 0, c)
    ensures c.indentation == "" && Unbroken(c) ==> '\n' !in Text(Laid(v, "", c))
  {
    hide Indented, Laid, Unbroken;
    assert Copies(c.indentation, 0) == "";
    LaidIndented(v, 0, c);
    if c.indentation == "" && Unbroken(c) { IndentedUnbroken(Laid(v, "", c), v, 0, c); }
  }
}
