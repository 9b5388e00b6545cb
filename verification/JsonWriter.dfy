/** `BuiltStyledStreamWriter`: printing a value with indentation, where short arrays of simple values
    go on one line. What is printed is a function of the value and the settings, and a layout of the
    value whatever the settings. */
module JsonWriter {
  import opened HttpTypes
  import opened JsonValues
  import opened JsonUnicode
  import opened JsonNumbers
  import opened JsonQuoting
  import opened JsonTokens
  import opened JsonLayout

  // ---------------------------------------------------------------- layouts of a value

  /** What the text of a scalar depends on: whether strings keep UTF-8 as it is, the text for null,
      and how doubles are printed. */
  datatype Style = Style(emitUtf8: bool, nullText: string, realText: Double -> string)

  function StringText(s: string, e: Style): string { "\"" + Quoted(s, e.emitUtf8) + "\"" }

  function ScalarText(v: Value, e: Style): string {
    match v
    case Null => e.nullText
    case Bool(b) => if b then "true" else "false"
    case Int(i) => IntText(i)
    case UInt(u) => IntText(u)
    case Str(s) => StringText(s, e)
    case Real(d) => e.realText(d)
    case _ => ""
  }

  /** `n` is `v` with some white space. */
  predicate Lays(n: Node, v: Value, e: Style) {
    match v
    case Arr(a) => n.List? && !n.trail && n.rest == "" && ItemsLay(n.items, a, e)
    case Obj(ms) => n.Dict? && !n.trail && n.rest == "" && EntriesLay(n.entries, ms, e)
    case _ => n == Atom(ScalarText(v, e))
  }

  predicate ItemsLay(items: seq<Item>, a: seq<Value>, e: Style) {
    |items| == |a| && forall i | 0 <= i < |a| :: Lays(items[i].node, a[i], e)
  }

  predicate EntriesLay(xs: seq<Entry>, ms: seq<Member>, e: Style) {
    |xs| == |ms| && forall i | 0 <= i < |ms| :: xs[i].key == StringText(ms[i].key, e) && xs[i].comma == "," && Lays(xs[i].node, ms[i].value, e)
  }

  /** All the white space is white. */
  predicate BlankIn(n: Node) {
    match n
    case Atom(_) => true
    case List(items, _, _) => forall i | 0 <= i < |items| :: BlankItem(items[i])
    case Dict(entries, _, _) => forall i | 0 <= i < |entries| :: BlankEntry(entries[i])
  }

  predicate BlankItem(i: Item) { Blank(i.before) && Blank(i.after) && BlankIn(i.node) }

  predicate BlankEntry(x: Entry) {
    Blank(x.before) && Blank(x.beforeColon) && Blank(x.afterColon) && Blank(x.after) && BlankIn(x.node)
  }

  // ---------------------------------------------------------------- growing a layout

  function ItemsText(items: seq<Item>): string {
    if items == [] then "" else ItemText(items[0]) + (if |items| == 1 then "" else "," + ItemsText(items[1..]))
  }

  function EntriesText(xs: seq<Entry>): string {
    if xs == [] then "" else EntryText(xs[0]) + (if |xs| == 1 then "" else "," + EntriesText(xs[1..]))
  }

  lemma {:induction false} ItemsWhole(items: seq<Item>)
    ensures InItems(items, false, "") == ItemsText(items) + "]"
    decreases items
  {
    hide Text, ItemText;
    if items != [] {
      ItemsWhole(items[1..]);
      var t := ItemText(items[0]);
      if |items| == 1 {
        assert t + "" == t && "" + "]" == "]";
      } else {
        Associative(t, "," + ItemsText(items[1..]), "]");
        Associative(",", ItemsText(items[1..]), "]");
      }
    }
  }

  predicate Commas(xs: seq<Entry>) { forall x <- xs :: x.comma == "," }

  lemma {:induction false} EntriesWhole(xs: seq<Entry>)
    requires Commas(xs)
    ensures InEntries(xs, false, "") == EntriesText(xs) + "}"
    decreases xs
  {
    hide Text, EntryText;
    if xs != [] {
      EntriesWhole(xs[1..]);
      var t := EntryText(xs[0]);
      if |xs| == 1 {
        assert t + "" == t && "" + "}" == "}";
      } else {
        Associative(t, "," + EntriesText(xs[1..]), "}");
        Associative(",", EntriesText(xs[1..]), "}");
      }
    }
  }

  lemma {:induction false} ItemsSnoc(items: seq<Item>, x: Item)
    ensures ItemsText(items + [x]) == (if items == [] then "" else ItemsText(items) + ",") + ItemText(x)
    decreases |items|
  {
    hide Text, ItemText;
    if items == [] {
      assert items + [x] == [x];
      assert ItemsText([x]) == ItemText(x) + "" == "" + ItemText(x);
    } else {
      assert (items + [x])[0] == items[0] && (items + [x])[1..] == items[1..] + [x];
      ItemsSnoc(items[1..], x);
      if |items| == 1 {
        assert items[1..] == [];
        assert ItemsText(items) == ItemText(items[0]) + "";
      } else {
        var a, b, c := ItemText(items[0]), ItemsText(items[1..]), ItemText(x);
        assert a + ("," + (b + "," + c)) == a + ("," + b) + "," + c;
      }
    }
  }

  lemma {:induction false} EntriesSnoc(xs: seq<Entry>, x: Entry)
    ensures EntriesText(xs + [x]) == (if xs == [] then "" else EntriesText(xs) + ",") + EntryText(x)
    decreases |xs|
  {
    hide Text, EntryText;
    if xs == [] {
      assert xs + [x] == [x];
      assert EntriesText([x]) == EntryText(x) + "" == "" + EntryText(x);
    } else {
      assert (xs + [x])[0] == xs[0] && (xs + [x])[1..] == xs[1..] + [x];
      EntriesSnoc(xs[1..], x);
      if |xs| == 1 {
        assert xs[1..] == [];
        assert EntriesText(xs) == EntryText(xs[0]) + "";
      } else {
        var a, b, c := EntryText(xs[0]), EntriesText(xs[1..]), EntryText(x);
        assert a + ("," + (b + "," + c)) == a + ("," + b) + "," + c;
      }
    }
  }

  /** White space after the last item. */
  function ItemsClosed(items: seq<Item>, blank: string): (r: seq<Item>)
    requires items != []
    ensures |r| == |items|
  {
    var x := items[|items| - 1];
    items[..|items| - 1] + [Item(x.before, x.node, x.after + blank)]
  }

  lemma Associative(a: string, b: string, c: string)
    ensures (a + b) + c == a + (b + c)
  {}

  lemma ClosedItemsText(items: seq<Item>, blank: string)
    requires items != []
    ensures ItemsText(ItemsClosed(items, blank)) == ItemsText(items) + blank
  {
    hide Text, ItemsText;
    var init, x := items[..|items| - 1], items[|items| - 1];
    var y := Item(x.before, x.node, x.after + blank);
    ItemsSnoc(init, x);
    ItemsSnoc(init, y);
    assert items == init + [x];
    Associative(x.before + Text(x.node), x.after, blank);
    assert ItemText(y) == ItemText(x) + blank;
    Associative(if init == [] then "" else ItemsText(init) + ",", ItemText(x), blank);
  }

  lemma ClosedItems(items: seq<Item>, blank: string, a: seq<Value>, e: Style)
    requires items != [] && ItemsLay(items, a, e)
    ensures ItemsText(ItemsClosed(items, blank)) == ItemsText(items) + blank && ItemsLay(ItemsClosed(items, blank), a, e)
    ensures Blank(blank) && BlankIn(List(items, false, "")) ==> BlankIn(List(ItemsClosed(items, blank), false, ""))
  {
    hide ItemsText, BlankIn;
    ClosedItemsText(items, blank);
    if Blank(blank) && BlankIn(List(items, false, "")) { ClosedBlank(items, blank); }
  }

  lemma ClosedBlank(items: seq<Item>, blank: string)
    requires items != [] && Blank(blank) && BlankIn(List(items, false, ""))
    ensures BlankIn(List(ItemsClosed(items, blank), false, ""))
  {
    var r := ItemsClosed(items, blank);
    assert BlankItem(items[|items| - 1]);
    forall i | 0 <= i < |r|
      ensures BlankItem(r[i])
    {
      if i < |items| - 1 { assert r[i] == items[i]; }
    }
  }

  function EntriesClosed(xs: seq<Entry>, blank: string): (r: seq<Entry>)
    requires xs != []
    ensures |r| == |xs|
  {
    var x := xs[|xs| - 1];
    xs[..|xs| - 1] + [x.(after := x.after + blank)]
  }

  lemma ClosedEntriesText(xs: seq<Entry>, blank: string)
    requires xs != []
    ensures EntriesText(EntriesClosed(xs, blank)) == EntriesText(xs) + blank
  {
    hide Text, EntriesText, StringText;
    var init, x := xs[..|xs| - 1], xs[|xs| - 1];
    var y := x.(after := x.after + blank);
    EntriesSnoc(init, x);
    EntriesSnoc(init, y);
    assert xs == init + [x];
    Associative(x.before + x.key + x.beforeColon + ":" + x.afterColon + Text(x.node), x.after, blank);
    assert EntryText(y) == EntryText(x) + blank;
    Associative(if init == [] then "" else EntriesText(init) + ",", EntryText(x), blank);
  }

  lemma ClosedEntries(xs: seq<Entry>, blank: string, ms: seq<Member>, e: Style)
    requires xs != [] && EntriesLay(xs, ms, e)
    ensures EntriesText(EntriesClosed(xs, blank)) == EntriesText(xs) + blank && EntriesLay(EntriesClosed(xs, blank), ms, e)
    ensures Blank(blank) && BlankIn(Dict(xs, false, "")) ==> BlankIn(Dict(EntriesClosed(xs, blank), false, ""))
  {
    hide EntriesText, BlankIn;
    ClosedEntriesText(xs, blank);
    if Blank(blank) && BlankIn(Dict(xs, false, "")) { ClosedBlankEntries(xs, blank); }
  }

  lemma ClosedBlankEntries(xs: seq<Entry>, blank: string)
    requires xs != [] && Blank(blank) && BlankIn(Dict(xs, false, ""))
    ensures BlankIn(Dict(EntriesClosed(xs, blank), false, ""))
  {
    var r := EntriesClosed(xs, blank);
    assert BlankEntry(xs[|xs| - 1]);
    forall i | 0 <= i < |r|
      ensures BlankEntry(r[i])
    {
      if i < |xs| - 1 { assert r[i] == xs[i]; }
    }
  }

  // ---------------------------------------------------------------- the layout that is printed

  /** The settings: comment style "All" or "None", indentation, the white space of the colon symbol,
      and what is printed at the end. */
  datatype Settings = Settings(
    style: Style, allComments: bool, indentation: string, beforeColon: string, afterColon: string, ending: string)

  /** 32-bit wrap-around. */
  function U32(x: int): nat { x % 0x1_0000_0000 }

  const RIGHT_MARGIN := 74

  /** Anything but an array or an object with something in it. */
  predicate Simple(v: Value) {
    match v
    case Arr(a) => a == []
    case Obj(ms) => ms == []
    case _ => true
  }

  function SimpleNode(v: Value, c: Settings): Node {
    match v
    case Arr(_) => List([], false, "")
    case Obj(_) => Dict([], false, "")
    case _ => Atom(ScalarText(v, c.style))
  }

  /** The length of an array on one line, up to its first `k` items. */
  function LineLength(a: seq<Value>, k: nat, c: Settings): nat
    requires k <= |a|
  {
    if k == 0 then U32(4 + (|a| - 1) * 2) else U32(LineLength(a, k - 1, c) + |Text(SimpleNode(a[k - 1], c))|)
  }

  /** The arrays that take several lines: all of them with comments; otherwise those with many items,
      with an item that is not simple, or too long for one line. */
  predicate Multiline(a: seq<Value>, c: Settings) {
    || c.allComments || U32(|a| * 3) >= RIGHT_MARGIN || (exists i :: 0 <= i < |a| && !Simple(a[i]))
    || LineLength(a, |a|, c) >= RIGHT_MARGIN
  }

  /** What `writeIndent` prints. */
  function NewLine(ind: string, c: Settings): string { if c.indentation == "" then "" else "\n" + ind }

  function Space(c: Settings): string { if c.indentation == "" then "" else " " }

  /** What is printed before a value that does not stand on a line of its own already. */
  function Before(v: Value, ind: string, c: Settings): string {
    if (v.Arr? && v.items != [] && Multiline(v.items, c)) || (v.Obj? && v.members != []) then NewLine(ind, c) else ""
  }

  /** The layout of a value, in lines that begin with `ind`. */
  function Laid(v: Value, ind: string, c: Settings): Node {
    if Simple(v) then SimpleNode(v, c)
    else
      match v
      case Arr(a) =>
        if Multiline(a, c) then List(ItemsClosed(LaidLines(a, ind + c.indentation, c), NewLine(ind, c)), false, "")
        else List(ItemsClosed(LaidRow(a, c), Space(c)), false, "")
      case Obj(ms) => Dict(EntriesClosed(LaidMembers(ms, ind + c.indentation, c), NewLine(ind, c)), false, "")
  }

  /** Each item on a line of its own. */
  function LaidLines(a: seq<Value>, ind: string, c: Settings): (r: seq<Item>)
    ensures |r| == |a|
  {
    if a == [] then []
    else LaidLines(a[..|a| - 1], ind, c) + [Item(NewLine(ind, c), Laid(a[|a| - 1], ind, c), "")]
  }

  /** All items on one line. */
  function LaidRow(a: seq<Value>, c: Settings): (r: seq<Item>)
    ensures |r| == |a|
  {
    if a == [] then [] else LaidRow(a[..|a| - 1], c) + [Item(Space(c), SimpleNode(a[|a| - 1], c), "")]
  }

  function LaidEntry(m: Member, ind: string, c: Settings): Entry {
    Entry(NewLine(ind, c), StringText(m.key, c.style), c.beforeColon, c.afterColon + Before(m.value, ind, c), Laid(m.value, ind, c), "", ",")
  }

  function LaidMembers(ms: seq<Member>, ind: string, c: Settings): (r: seq<Entry>)
    ensures |r| == |ms|
  {
    if ms == [] then []
    else
      var m := ms[|ms| - 1];
      LaidMembers(ms[..|ms| - 1], ind, c) + [LaidEntry(m, ind, c)]
  }

  lemma TakeOne<T>(a: seq<T>, k: nat)
    requires k < |a|
    ensures a[..k + 1] != [] && a[..k + 1][..k] == a[..k] && a[..k + 1][k] == a[k] && |a[..k + 1]| == k + 1
  {}

  /** All the white space of the settings is white. */
  predicate White(c: Settings) { Blank(c.indentation) && Blank(c.beforeColon) && Blank(c.afterColon) && Blank(c.ending) }

  lemma NewLineBlank(ind: string, c: Settings)
    requires White(c) && Blank(ind)
    ensures Blank(NewLine(ind, c)) && Blank(Space(c)) && Blank("") && Blank(ind + c.indentation)
  {}

  lemma EntryBlanks(v: Value, ind: string, c: Settings)
    requires White(c) && Blank(ind)
    ensures Blank(c.beforeColon) && Blank(c.afterColon + Before(v, ind, c))
  {
    hide Multiline;
    NewLineBlank(ind, c);
  }

  lemma SimpleLaid(v: Value, c: Settings)
    requires Simple(v)
    ensures Lays(SimpleNode(v, c), v, c.style) && BlankIn(SimpleNode(v, c))
  {}

  /** What is printed is a layout of the value, whatever the settings; and in white space if they are. */
  lemma {:induction false} LaidLays(v: Value, ind: string, c: Settings)
    ensures Lays(Laid(v, ind, c), v, c.style) && (White(c) && Blank(ind) ==> BlankIn(Laid(v, ind, c)))
    decreases v
  {
    hide Multiline, Blank, ItemsText, EntriesText, Lays, BlankIn, White, SimpleNode;
    if White(c) && Blank(ind) { NewLineBlank(ind, c); }
    if Simple(v) {
      SimpleLaid(v, c);
    } else {
      match v {
        case Arr(a) =>
          if Multiline(a, c) {
            LinesLay(a, ind + c.indentation, c);
            ClosedList(LaidLines(a, ind + c.indentation, c), NewLine(ind, c), a, c.style);
          } else {
            RowSimple(a, c);
            RowLays(a, c);
            ClosedList(LaidRow(a, c), Space(c), a, c.style);
          }
        case Obj(ms) =>
          MembersLay(ms, ind + c.indentation, c);
          ClosedDict(LaidMembers(ms, ind + c.indentation, c), NewLine(ind, c), ms, c.style);
      }
    }
  }

  lemma ClosedList(items: seq<Item>, blank: string, a: seq<Value>, e: Style)
    requires items != [] && ItemsLay(items, a, e)
    ensures Lays(List(ItemsClosed(items, blank), false, ""), Arr(a), e)
    ensures Blank(blank) && BlankIn(List(items, false, "")) ==> BlankIn(List(ItemsClosed(items, blank), false, ""))
  {
    hide Blank, BlankIn, ItemsText, ItemsClosed;
    ClosedItems(items, blank, a, e);
  }

  lemma ClosedDict(xs: seq<Entry>, blank: string, ms: seq<Member>, e: Style)
    requires xs != [] && EntriesLay(xs, ms, e)
    ensures Lays(Dict(EntriesClosed(xs, blank), false, ""), Obj(ms), e)
    ensures Blank(blank) && BlankIn(Dict(xs, false, "")) ==> BlankIn(Dict(EntriesClosed(xs, blank), false, ""))
  {
    hide Blank, BlankIn, EntriesText, EntriesClosed, StringText, EntriesLay;
    ClosedEntries(xs, blank, ms, e);
  }

  lemma RowSimple(a: seq<Value>, c: Settings)
    requires !Multiline(a, c)
    ensures forall i | 0 <= i < |a| :: Simple(a[i])
  {}

  lemma {:induction false} LinesLay(a: seq<Value>, ind: string, c: Settings)
    ensures ItemsLay(LaidLines(a, ind, c), a, c.style) && (White(c) && Blank(ind) ==> BlankIn(List(LaidLines(a, ind, c), false, "")))
    decreases a
  {
    hide Laid, Lays, Blank, White;
    if White(c) && Blank(ind) { NewLineBlank(ind, c); }
    if a != [] {
      LinesLay(a[..|a| - 1], ind, c);
      LaidLays(a[|a| - 1], ind, c);
    }
  }

  lemma {:induction false} RowLays(a: seq<Value>, c: Settings)
    requires forall i | 0 <= i < |a| :: Simple(a[i])
    ensures ItemsLay(LaidRow(a, c), a, c.style) && BlankIn(List(LaidRow(a, c), false, ""))
    decreases a
  {
    hide Lays, SimpleNode;
    SpacesBlank();
    if a != [] {
      RowLays(a[..|a| - 1], c);
      SimpleLaid(a[|a| - 1], c);
    }
  }

  lemma {:induction false} MembersLay(ms: seq<Member>, ind: string, c: Settings)
    ensures EntriesLay(LaidMembers(ms, ind, c), ms, c.style) && (White(c) && Blank(ind) ==> BlankIn(Dict(LaidMembers(ms, ind, c), false, "")))
    decreases ms
  {
    hide Laid, Lays, Blank, White, StringText, Before;
    if White(c) && Blank(ind) { NewLineBlank(ind, c); }
    if ms != [] {
      var m := ms[|ms| - 1];
      MembersLay(ms[..|ms| - 1], ind, c);
      LaidLays(m.value, ind, c);
      if White(c) && Blank(ind) { EntryBlanks(m.value, ind, c); }
    }
  }

  // ---------------------------------------------------------------- the writer

  class BuiltStyledStreamWriter {
    const c: Settings
    var sout: string
    var childValues: seq<string>
    var indentString: string
    var addChildValues: bool
    var indented: bool

    constructor (settings: Settings)
      ensures c == settings && Valid()
    {
      c := settings;
      sout, childValues, indentString, addChildValues, indented := "", [], "", false, false;
    }

    /** With comment style "All" no array is ever measured. */
    predicate Valid()
      reads this
    {
      c.allComments ==> childValues == []
    }

    /** What is printed before the next thing. */
    function Gap(): string
      reads this
    {
      if indented then "" else NewLine(indentString, c)
    }

    method PushValue(value: string)
      modifies `childValues, `sout
      ensures if addChildValues then childValues == old(childValues) + [value] && sout == old(sout)
              else childValues == old(childValues) && sout == old(sout) + value
    {
      if addChildValues { childValues := childValues + [value]; } else { sout := sout + value; }
    }

    method WriteIndent()
      modifies `sout
      ensures sout == old(sout) + NewLine(indentString, c)
    {
      if c.indentation != "" { sout := sout + "\n" + indentString; }
    }

    method WriteWithIndent(value: string)
      modifies `sout, `indented
      ensures sout == old(sout) + old(Gap()) + value && !indented
    {
      if !indented { WriteIndent(); }
      sout := sout + value;
      indented := false;
    }

    method Indent()
      modifies `indentString
      ensures indentString == old(indentString) + c.indentation
    {
      indentString := indentString + c.indentation;
    }

    method Unindent()
      requires |indentString| >= |c.indentation|
      modifies `indentString
      ensures indentString == old(indentString)[..|old(indentString)| - |c.indentation|]
    {
      indentString := indentString[..|indentString| - |c.indentation|];
    }

    /** The text of a scalar. */
    method ScalarValueText(v: Value) returns (s: string)
      requires !v.Arr? && !v.Obj?
      ensures s == ScalarText(v, c.style)
    {
      match v {
        case Null => s := c.style.nullText;
        case Int(i) => s := IntToString(i);
        case UInt(u) => s := UIntToString(u);
        case Real(d) => s := c.style.realText(d);
        case Str(t) => s := ValueToQuotedString(t, c.style.emitUtf8);
        case Bool(b) => s := if b then "true" else "false";
      }
    }

    /** The text of a value, with the line break before it. */
    ghost function Printed(v: Value): string
      reads this
    {
      (if indented then "" else Before(v, indentString, c)) + Text(Laid(v, indentString, c))
    }

    /** Prints a value, or measures a simple one. */
    method WriteValue(v: Value)
      requires Valid() && (addChildValues ==> Simple(v) && !c.allComments)
      modifies `sout, `childValues, `indentString, `addChildValues, `indented
      ensures Valid() && indentString == old(indentString) && addChildValues == old(addChildValues)
      ensures if addChildValues
              then childValues == old(childValues) + [Text(SimpleNode(v, c))] && sout == old(sout) && indented == old(indented)
              else sout == old(sout) + old(Printed(v)) && (indented ==> old(indented))
      decreases v, 4
    {
      hide Multiline, ItemsText, EntriesText;
      match v {
        case Arr(a) =>
          WriteArrayValue(a, v);
        case Obj(ms) =>
          if ms == [] {
            PushValue("{}");
            EmptyText();
            assert "" + "{}" == "{}";
          } else {
            WriteObjectValue(ms, v);
          }
        case _ =>
          var s := ScalarValueText(v);
          PushValue(s);
          assert "" + s == s;
      }
    }

    method WriteArrayValue(a: seq<Value>, ghost v: Value)
      requires Valid() && v == Arr(a) && (addChildValues ==> Simple(v) && !c.allComments)
      modifies `sout, `childValues, `indentString, `addChildValues, `indented
      ensures Valid() && indentString == old(indentString) && addChildValues == old(addChildValues)
      ensures if addChildValues
              then childValues == old(childValues) + [Text(SimpleNode(v, c))] && sout == old(sout) && indented == old(indented)
              else sout == old(sout) + old(Printed(v)) && (indented ==> old(indented))
      decreases v, 3
    {
      hide ItemsText, EntriesText;
      if a == [] {
        PushValue("[]");
        EmptyText();
        assert "" + "[]" == "[]";
        return;
      }
      var multiLine := c.allComments;
      if !multiLine { multiLine := IsMultilineArray(a, v); }
      if multiLine {
        WriteLines(a, v);
      } else {
        WriteLine(a);
        assert "" + Text(Laid(v, indentString, c)) == Text(Laid(v, indentString, c));
      }
    }

    /** The texts in `childValues` are those of the children, which are simple. */
    ghost predicate Measured(a: seq<Value>)
      reads this
    {
      |childValues| == |a| && forall i | 0 <= i < |a| :: Simple(a[i]) && childValues[i] == Text(SimpleNode(a[i], c))
    }

    /** Whether an array takes several lines; its children are measured unless that is clear before. */
    method IsMultilineArray(a: seq<Value>, ghost v: Value) returns (multiLine: bool)
      requires Valid() && v == Arr(a) && a != [] && !addChildValues && !c.allComments
      modifies `sout, `childValues, `indentString, `addChildValues, `indented
      ensures Valid() && indentString == old(indentString) && !addChildValues && sout == old(sout) && indented == old(indented)
      ensures multiLine <==> Multiline(a, c)
      ensures Measured(a) || (multiLine && childValues == [])
      decreases v, 1
    {
      hide SimpleNode, Text;
      var size := |a|;
      multiLine := U32(size * 3) >= RIGHT_MARGIN;
      childValues := [];
      var index := 0;
      while index < size && !multiLine
        invariant index <= size && sout == old(sout) && indentString == old(indentString) && indented == old(indented)
        invariant !addChildValues && childValues == []
        invariant if multiLine then U32(size * 3) >= RIGHT_MARGIN || exists i :: 0 <= i < size && !Simple(a[i])
                  else U32(size * 3) < RIGHT_MARGIN && forall i | 0 <= i < index :: Simple(a[i])
      {
        multiLine := !Simple(a[index]);
        index := index + 1;
      }
      if multiLine { return; }
      addChildValues := true;
      var lineLength := U32(4 + (size - 1) * 2);
      index := 0;
      while index < size
        invariant index <= size && sout == old(sout) && indentString == old(indentString) && indented == old(indented)
        invariant addChildValues && Valid() && |childValues| == index && lineLength == LineLength(a, index, c)
        invariant forall i | 0 <= i < index :: childValues[i] == Text(SimpleNode(a[i], c))
      {
        WriteValue(a[index]);
        lineLength := U32(lineLength + |childValues[index]|);
        index := index + 1;
      }
      addChildValues := false;
      multiLine := lineLength >= RIGHT_MARGIN;
    }

    /** A child on a line of its own. */
    method WriteChild(child: Value, ghost v: Value)
      requires Valid() && !addChildValues && child < v && !indented
      modifies `sout, `childValues, `indentString, `addChildValues, `indented
      ensures Valid() && indentString == old(indentString) && !addChildValues && !indented
      ensures sout == old(sout) + ItemText(Item(NewLine(indentString, c), Laid(child, indentString, c), ""))
      decreases v, 0
    {
      hide Text, Laid, Before;
      if !indented { WriteIndent(); }
      indented := true;
      WriteValue(child);
      indented := false;
      ItemPieces(old(sout), NewLine(indentString, c), "", Laid(child, indentString, c));
      assert "" + Text(Laid(child, indentString, c)) == Text(Laid(child, indentString, c));
      assert NewLine(indentString, c) + "" == NewLine(indentString, c);
      assert old(sout) + NewLine(indentString, c) + "" == old(sout) + NewLine(indentString, c);
    }

    /** A child that has been measured, on a line of its own. */
    method WriteMeasured(text: string, ghost node: Node)
      requires text == Text(node) && !indented
      modifies `sout, `indented
      ensures sout == old(sout) + ItemText(Item(NewLine(indentString, c), node, "")) && !indented
    {
      hide Text;
      WriteWithIndent(text);
      var gap := NewLine(indentString, c);
      ItemPieces(old(sout), gap, "", node);
      assert gap + "" == gap && old(sout) + gap + "" == old(sout) + gap;
    }

    /** The children one by one, with commas. */
    method WriteItems(a: seq<Value>, ghost v: Value)
      requires Valid() && v == Arr(a) && a != [] && !addChildValues && !indented
      requires childValues == [] || Measured(a)
      modifies `sout, `childValues, `indentString, `addChildValues, `indented
      ensures Valid() && indentString == old(indentString) && !addChildValues && !indented
      ensures sout == old(sout) + ItemsText(LaidLines(a, indentString, c))
      decreases v, 1
    {
      hide Text, ItemText, ItemsText, Laid, SimpleNode;
      var hasChildValue := childValues != [];
      NoItemsText();
      assert sout == sout + "" + "";
      var index := 0;
      while index < |a|
        invariant index <= |a| && Valid() && !addChildValues && indentString == old(indentString) && !indented
        invariant hasChildValue ==> Measured(a)
        invariant sout == old(sout) + ItemsText(LaidLines(a[..index], indentString, c)) + if 0 < index < |a| then "," else ""
      {
        ghost var before, done := sout, LaidLines(a[..index], indentString, c);
        ghost var item := Item(NewLine(indentString, c), Laid(a[index], indentString, c), "");
        if hasChildValue {
          assert Laid(a[index], indentString, c) == SimpleNode(a[index], c) by { SimpleIs(a[index], indentString, c); }
          WriteMeasured(childValues[index], SimpleNode(a[index], c));
        } else {
          WriteChild(a[index], v);
        }
        TakeOne(a, index);
        assert LaidLines(a[..index + 1], indentString, c) == done + [item];
        ItemPrinted(old(sout), done, item, before);
        index := index + 1;
        if index != |a| { sout := sout + ","; }
      }
      assert a[..index] == a;
    }

    /** The children one by one, each on its own line. */
    method WriteLines(a: seq<Value>, ghost v: Value)
      requires Valid() && v == Arr(a) && a != [] && !addChildValues && Multiline(a, c)
      requires childValues == [] || Measured(a)
      modifies `sout, `childValues, `indentString, `addChildValues, `indented
      ensures Valid() && indentString == old(indentString) && !addChildValues && !indented
      ensures sout == old(sout) + old(Printed(v))
      decreases v, 2
    {
      hide Text, ItemsText, LaidLines, ItemsClosed, Multiline;
      ghost var pre := Gap();
      WriteWithIndent("[");
      Indent();
      WriteItems(a, v);
      assert old(indentString) == indentString[..|indentString| - |c.indentation|];
      Unindent();
      ghost var gap := Gap();
      WriteWithIndent("]");
      ghost var items := LaidLines(a, indentString + c.indentation, c);
      ArrayPrinted(old(sout), pre, items, gap);
      Associative(old(sout), pre, Text(List(ItemsClosed(items, gap), false, "")));
    }

    /** All children on one line. */
    method WriteLine(a: seq<Value>)
      requires a != [] && Measured(a) && !Multiline(a, c)
      modifies `sout
      ensures sout == old(sout) + Text(List(ItemsClosed(LaidRow(a, c), Space(c)), false, ""))
    {
      hide Text, ItemText, ItemsText, Multiline, SimpleNode, ItemsClosed;
      ghost var start := old(sout) + "[";
      sout := sout + "[";
      if c.indentation != "" { sout := sout + " "; }
      assert sout == start + Space(c);
      var index := 0;
      while index < |a|
        invariant index <= |a| && Measured(a)
        invariant sout == start + if index == 0 then Space(c) else ItemsText(LaidRow(a[..index], c))
      {
        ghost var before, items := sout, LaidRow(a[..index], c);
        if index > 0 { sout := sout + if c.indentation != "" then ", " else ","; }
        sout := sout + childValues[index];
        LinePrinted(start, items, Space(c), SimpleNode(a[index], c), before, sout);
        TakeOne(a, index);
        assert LaidRow(a[..index + 1], c) == items + [Item(Space(c), SimpleNode(a[index], c), "")];
        index := index + 1;
      }
      assert a[..index] == a;
      if c.indentation != "" { sout := sout + " "; }
      sout := sout + "]";
      ghost var items := LaidRow(a, c);
      assert old(sout) + "" == old(sout);
      assert sout == start + ItemsText(items) + Space(c) + "]";
      ArrayPrinted(old(sout), "", items, Space(c));
    }

    /** A member on a line of its own. */
    method WriteEntry(m: Member, ghost v: Value)
      requires Valid() && !addChildValues && m.value < v && !indented
      modifies `sout, `childValues, `indentString, `addChildValues, `indented
      ensures Valid() && indentString == old(indentString) && !addChildValues && !indented
      ensures sout == old(sout) + EntryText(LaidEntry(m, indentString, c))
      decreases v, 0
    {
      hide Text, StringText, Laid, Before, EntryText;
      var key := ValueToQuotedString(m.key, c.style.emitUtf8);
      assert key == StringText(m.key, c.style) by { StringTextIs(m.key, c.style); }
      WriteWithIndent(key);
      sout := sout + (c.beforeColon + ":" + c.afterColon);
      ghost var at := sout;
      WriteValue(m.value);
      ghost var x := LaidEntry(m, indentString, c);
      EntryPieces(old(sout), Before(m.value, indentString, c), c.afterColon, x);
      Associative(at, Before(m.value, indentString, c), Text(x.node));
    }

    method WriteObjectValue(ms: seq<Member>, ghost v: Value)
      requires Valid() && v == Obj(ms) && ms != [] && !addChildValues
      modifies `sout, `childValues, `indentString, `addChildValues, `indented
      ensures Valid() && indentString == old(indentString) && addChildValues == old(addChildValues) && !indented
      ensures sout == old(sout) + old(Printed(v))
      decreases v, 3
    {
      hide Text, EntriesText, LaidMembers, EntriesClosed;
      ghost var pre := Gap();
      WriteWithIndent("{");
      Indent();
      WriteEntries(ms, v);
      assert old(indentString) == indentString[..|indentString| - |c.indentation|];
      Unindent();
      ghost var gap := Gap();
      WriteWithIndent("}");
      ghost var entries := LaidMembers(ms, indentString + c.indentation, c);
      LaidCommas(ms, indentString + c.indentation, c);
      ObjectPrinted(old(sout), pre, entries, gap);
      Associative(old(sout), pre, Text(Dict(EntriesClosed(entries, gap), false, "")));
    }

    /** The members one by one, with commas. */
    method WriteEntries(ms: seq<Member>, ghost v: Value)
      requires Valid() && v == Obj(ms) && ms != [] && !addChildValues && !indented
      modifies `sout, `childValues, `indentString, `addChildValues, `indented
      ensures Valid() && indentString == old(indentString) && !addChildValues && !indented
      ensures sout == old(sout) + EntriesText(LaidMembers(ms, indentString, c))
      decreases v, 1
    {
      hide EntryText, EntriesText, LaidEntry;
      NoEntriesText();
      assert sout == sout + "" + "";
      var index := 0;
      while index < |ms|
        invariant index <= |ms| && Valid() && !addChildValues && indentString == old(indentString) && !indented
        invariant sout == old(sout) + EntriesText(LaidMembers(ms[..index], indentString, c)) + if 0 < index < |ms| then "," else ""
      {
        ghost var before, done := sout, LaidMembers(ms[..index], indentString, c);
        WriteEntry(ms[index], v);
        TakeOne(ms, index);
        ghost var entry := LaidEntry(ms[index], indentString, c);
        assert LaidMembers(ms[..index + 1], indentString, c) == done + [entry];
        EntryPrinted(old(sout), done, entry, before);
        index := index + 1;
        if index != |ms| { sout := sout + ","; }
      }
      assert ms[..index] == ms;
    }

    /** The whole text of a value. */
    method Write(root: Value) returns (text: string)
      requires Valid()
      modifies this
      ensures Valid() && text == Text(Laid(root, "", c)) + c.ending
    {
      hide Text, Laid;
      sout := "";
      addChildValues, indented, indentString := false, true, "";
      WriteValue(root);
      assert "" + Text(Laid(root, "", c)) == Text(Laid(root, "", c)) && "" + ("" + Text(Laid(root, "", c))) == Text(Laid(root, "", c));
      sout := sout + c.ending;
      text := sout;
    }
  }

  lemma EmptyText()
    ensures Text(List([], false, "")) == "[]" && Text(Dict([], false, "")) == "{}"
  {}

  lemma SimpleIs(v: Value, ind: string, c: Settings)
    requires Simple(v)
    ensures Laid(v, ind, c) == SimpleNode(v, c)
  {}

  lemma SpacesBlank()
    ensures Blank("") && Blank(" ")
  {}

  lemma StringTextIs(s: string, e: Style)
    ensures StringText(s, e) == "\"" + Quoted(s, e.emitUtf8) + "\""
  {}

  /** One more item of an array on one line. */
  lemma LinePrinted(start: string, items: seq<Item>, space: string, n: Node, before: string, after: string)
    requires before == start + (if items == [] then space else ItemsText(items))
    requires after == before + (if items == [] then "" else "," + space) + Text(n)
    ensures after == start + ItemsText(items + [Item(space, n, "")])
  {
    hide ItemsText, Text;
    var x := Item(space, n, "");
    var t := Text(n);
    assert ItemText(x) == space + t;
    ItemsSnoc(items, x);
    if items == [] {
      assert after == start + (space + t);
      assert "" + (space + t) == space + t;
    } else {
      var u := ItemsText(items);
      Associative(start + u, ",", space);
      Associative(start + u + ",", space, t);
      Associative(start, u, ",");
      Associative(start, u + ",", space + t);
    }
  }

  lemma NoEntriesText()
    ensures EntriesText([]) == ""
  {}

  lemma EntryPieces(before: string, pre: string, colonAfter: string, x: Entry)
    requires x.afterColon == colonAfter + pre && x.after == ""
    ensures before + x.before + x.key + (x.beforeColon + ":" + colonAfter) + pre + Text(x.node)
         == before + EntryText(x)
  {
    hide Text, StringText;
    var k, b, t := x.key, x.beforeColon, Text(x.node);
    var head := x.before + k;
    Associative(before, x.before, k);
    Associative(before, head, b + ":" + colonAfter);
    Associative(head, b + ":", colonAfter);
    Associative(head, b, ":");
    Associative(before, head + b + ":" + colonAfter, pre);
    Associative(head + b + ":", colonAfter, pre);
    Associative(before, head + b + ":" + x.afterColon, t);
    assert EntryText(x) == head + b + ":" + x.afterColon + t + "" == head + b + ":" + x.afterColon + t;
  }

  /** One more member in the output, after the comma that follows the one before. */
  lemma EntryPrinted(start: string, xs: seq<Entry>, x: Entry, before: string)
    requires before == start + EntriesText(xs) + (if xs == [] then "" else ",")
    ensures before + EntryText(x) == start + EntriesText(xs + [x])
  {
    hide EntriesText, EntryText;
    EntriesSnoc(xs, x);
    var t := EntriesText(xs);
    if xs == [] {
      assert t == "" by { NoEntriesText(); }
      assert start + t + "" == start;
      assert "" + EntryText(x) == EntryText(x);
    } else {
      Associative(start, t, ",");
      Associative(start, t + ",", EntryText(x));
    }
  }

  lemma ObjectPrinted(before: string, pre: string, xs: seq<Entry>, gap: string)
    requires xs != [] && Commas(xs)
    ensures before + pre + "{" + EntriesText(xs) + gap + "}" == before + pre + Text(Dict(EntriesClosed(xs, gap), false, ""))
  {
    hide EntriesText, InEntries;
    ClosedEntriesText(xs, gap);
    EntriesWhole(EntriesClosed(xs, gap));
    var t := EntriesText(xs);
    Associative(before + pre + "{", t, gap);
    Associative(before + pre, "{", t + gap);
    Associative(before + pre, "{" + (t + gap), "}");
    Associative("{", t + gap, "}");
  }

  lemma {:induction false} LaidCommas(ms: seq<Member>, ind: string, c: Settings)
    ensures Commas(LaidMembers(ms, ind, c))
    decreases ms
  {
    hide Laid, Before, NewLine, StringText;
    if ms != [] { LaidCommas(ms[..|ms| - 1], ind, c); }
  }

  /** One more item in the output, after the comma that follows the one before. */
  lemma ItemPrinted(start: string, items: seq<Item>, x: Item, before: string)
    requires before == start + ItemsText(items) + (if items == [] then "" else ",")
    ensures before + ItemText(x) == start + ItemsText(items + [x])
  {
    hide ItemsText, ItemText;
    ItemsSnoc(items, x);
    var t := ItemsText(items);
    if items == [] {
      assert t == "" by { NoItemsText(); }
      assert start + t + "" == start;
      assert "" + ItemText(x) == ItemText(x);
    } else {
      Associative(start, t, ",");
      Associative(start, t + ",", ItemText(x));
    }
  }

  lemma ItemPieces(before: string, gap: string, pre: string, n: Node)
    ensures before + gap + pre + Text(n) == before + ItemText(Item(gap + pre, n, ""))
  {
    hide Text;
    var t := Text(n);
    Associative(before, gap, pre);
    Associative(before, gap + pre, t);
    assert gap + pre + t + "" == gap + pre + t;
  }

  lemma NoItemsText()
    ensures ItemsText([]) == ""
  {}

  lemma ArrayPrinted(before: string, pre: string, items: seq<Item>, gap: string)
    requires items != []
    ensures before + pre + "[" + ItemsText(items) + gap + "]" == before + pre + Text(List(ItemsClosed(items, gap), false, ""))
  {
    hide ItemsText, InItems;
    ClosedItemsText(items, gap);
    ItemsWhole(ItemsClosed(items, gap));
    var t := ItemsText(items);
    Associative(before + pre + "[", t, gap);
    Associative(before + pre, "[", t + gap);
    Associative(before + pre, "[" + (t + gap), "]");
    Associative("[", t + gap, "]");
  }
}
