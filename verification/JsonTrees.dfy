/** Texts of trees are read as what they mean. */
module JsonTrees {
  import opened HttpTypes
  import opened Options
  import opened JsonValues
  import opened JsonQuoting
  import opened JsonTokens
  import opened JsonParse
  import opened JsonLayout
  import opened JsonSteps

  /** The text of a value begins with a character that neither separates nor closes. */
  lemma TextStarts(n: Node, env: Env)
    requires Proper(n, env)
    ensures Text(n) != "" && !IsBlank(Text(n)[0]) && Text(n)[0] !in {']', '}', ',', ':', '/', '\0'} && Text(n)[0] as int < 128
  {
    if n.Atom? { AtomStarts(n.text, env); }
  }

  /** What is demanded of a tree where `room` levels are left. */
  predicate Fits(n: Node, room: int, env: Env) {
    Proper(n, env) && Depth(n) <= room && (env.f.rejectDupKeys ==> KeysDiffer(n, env))
  }

  predicate ItemsFit(items: seq<Item>, room: int, env: Env) {
    ItemsProper(items, env) && ItemsDepth(items) < room && (env.f.rejectDupKeys ==> ItemsDiffer(items, env))
  }

  predicate EntriesFit(ms: seq<Member>, xs: seq<Entry>, room: int, env: Env) {
    EntriesProper(xs, env) && EntriesDepth(xs) < room && (env.f.rejectDupKeys ==> EntriesDiffer(ms, xs, env))
  }

  lemma Regroup(a: string, b: string, c: string, d: string)
    ensures (a + b + c) + d == a + (b + (c + d))
  {}

  // ---------------------------------------------------------------- arrays

  /** What follows the first item. */
  function ItemsTail(items: seq<Item>, trail: bool, rest: string): string
    requires items != []
  {
    if |items| > 1 || trail then [','] + InItems(items[1..], trail, rest) else rest + "]"
  }

  lemma ItemsParts(items: seq<Item>, trail: bool, rest: string)
    requires items != []
    ensures InItems(items, trail, rest)
         == items[0].before + (Text(items[0].node) + (items[0].after + ItemsTail(items, trail, rest)))
  {
    hide Text;
    var i := items[0];
    assert "," == [','];
    Regroup(i.before, Text(i.node), i.after, ItemsTail(items, trail, rest));
  }

  /** A value followed by a gap and a separator. */
  lemma EndsBefore(doc: string, p: nat, g: string, rest: string)
    requires Gap(g) && Spells(doc, p, g + rest) && (g == "" ==> rest != "" && rest[0] in {',', ']', '}'})
    ensures Delimited(doc, p)
  {
    if g != "" { GapFirst(g); }
    SpellsAt(doc, p, g + rest, 0);
  }

  lemma GapFirst(g: string)
    requires Gap(g) && g != ""
    ensures IsBlank(g[0]) || g[0] == '/'
  {
    hide Gap;
    var k := GapCases(g);
    if Comment(g[..k]) { assert g[..k][0] == '/'; }
  }

  /** Where the parts of the first item stand. */
  lemma FirstItem(doc: string, p: nat, items: seq<Item>, trail: bool, rest: string, env: Env)
    requires items != [] && ItemsProper(items, env) && (|items| > 1 || trail || rest == "") && Spells(doc, p, InItems(items, trail, rest))
    ensures var i := items[0];
            var e := p + |i.before| + |Text(i.node)|;
            && p <= |doc| && CharAt(doc, SpaceEnd(doc, p)) != ']'
            && Stands(doc, p, i.before + Text(i.node)) && Spells(doc, e, i.after + ItemsTail(items, trail, rest))
  {
    hide Text, Spells, Delimited, SpaceEnd, InItems, Proper, IsBlank, Blank, Gap;
    var i := items[0];
    var t, tail := Text(i.node), i.after + ItemsTail(items, trail, rest);
    ItemsParts(items, trail, rest);
    assert i.before + (t + tail) == i.before + t + tail;
    SpellsParts(doc, p, i.before + t, tail);
    EndsBefore(doc, p + |i.before| + |t|, i.after, ItemsTail(items, trail, rest));
    TextStarts(i.node, env);
    assert p <= |doc| by { SpellsInside(doc, p, i.before + t); }
    NoBracket(doc, p, i.before, t, env.f);
  }

  lemma SpellsInside(doc: string, p: nat, s: string)
    requires Spells(doc, p, s)
    ensures p + |s| <= |doc|
  {}

  /** The first character that is not white, of a gap and a value. */
  lemma {:induction false} NoBracket(doc: string, p: nat, g: string, t: string, f: Features)
    requires ValueGap(g, f) && Spells(doc, p, g + t) && t != "" && !IsBlank(t[0]) && t[0] != ']'
    ensures p <= |doc| && CharAt(doc, SpaceEnd(doc, p)) != ']'
    decreases |g|
  {
    hide Gap, Comment;
    SpellsAt(doc, p, g + t, 0);
    if g != "" {
      if !f.allowComments { BlankGap(g); }
      var k := GapCases(g);
      if Comment(g[..k]) {
        assert g[0] == g[..k][0] == '/' by { CommentFirst(g[..k]); }
      } else {
        assert (g + t)[1..] == g[1..] + t;
        SpellsTail(doc, p, g + t);
        assert Blank(g) ==> Blank(g[1..]) by { BlankTail(g); }
        NoBracket(doc, p + 1, g[1..], t, f);
      }
    }
  }

  lemma CommentFirst(c: string)
    requires Comment(c)
    ensures c[0] == '/'
  {}

  /** One round of the loop over an array. */
  lemma ItemRound(doc: string, p: nat, room: int, done: seq<Value>, env: Env, v: Value, e: nat)
    requires p <= |doc| && CharAt(doc, SpaceEnd(doc, p)) != ']' && e <= |doc|
    requires ParseValue(doc, p, room - 1, env) == Good(v, e)
    ensures var t := AfterComments(doc, e, env.f);
            && (t.kind == ArrayEnd ==>
                  && ParseItems(doc, p, room, done, env) == Good(Arr(done + [v]), t.end)
                  && (ItemsKept(doc, p, room, done, env) <==> ValueKept(doc, p, room - 1, env) && CommentKept(doc, e, env.f)))
            && (t.kind == ArraySeparator ==>
                  && ParseItems(doc, p, room, done, env) == ParseItems(doc, t.end, room, done + [v], env)
                  && (ItemsKept(doc, p, room, done, env) <==>
                      ValueKept(doc, p, room - 1, env) && CommentKept(doc, e, env.f) && ItemsKept(doc, t.end, room, done + [v], env)))
  {
    hide ParseValue, ValueKept, SpaceEnd, AfterComments, Lex;
    ValueSkips(doc, p, room - 1, env);
  }

  /** White space before a value makes no difference. */
  lemma ValueSkips(doc: string, p: nat, room: int, env: Env)
    requires p <= |doc|
    ensures var q := SpaceEnd(doc, p);
            ParseValue(doc, q, room, env) == ParseValue(doc, p, room, env) && ValueKept(doc, q, room, env) == ValueKept(doc, p, room, env)
  {
    hide SpaceEnd, ValueToken, ParseItems, ParseMembers, ItemsKept, MembersKept, ParseScalar;
    LexSkips(doc, p, SpaceEnd(doc, p), env.f);
  }

  lemma ItemsOver(doc: string, p: nat, room: int, done: seq<Value>, env: Env)
    requires p <= |doc| && CharAt(doc, SpaceEnd(doc, p)) == ']'
    requires done == [] || (env.f.allowTrailingCommas && !env.f.allowDroppedNullPlaceholders)
    ensures ParseItems(doc, p, room, done, env) == Good(Arr(done), SpaceEnd(doc, p) + 1) && ItemsKept(doc, p, room, done, env)
  {
    hide SpaceEnd;
  }

  lemma FirstFits(first: bool, items: seq<Item>, trail: bool, rest: string, room: int, env: Env)
    requires ItemsFit(items, room, env) && ItemsClose(first, items, trail, rest, env.f) && items != []
    ensures Fits(items[0].node, room - 1, env) && ItemsFit(items[1..], room, env) && ItemsProper(items, env)
    ensures ValueGap(items[0].before, env.f) && Gap(items[0].after)
    ensures ItemsMeaning(items, env) == [Meaning(items[0].node, env)] + ItemsMeaning(items[1..], env)
    ensures if |items| > 1 || trail then ItemsClose(false, items[1..], trail, rest, env.f) else rest == ""
    ensures ItemsRegular(items, env.f) <==>
            GapRegular(items[0].after, env.f) && Regular(items[0].node, env.f) && ItemsRegular(items[1..], env.f)
  {
    hide Proper, Depth, KeysDiffer, Meaning, Regular, GapRegular;
  }

  lemma NoItems(trail: bool, rest: string)
    ensures InItems([], trail, rest) == rest + "]" == rest + ([']'] + "")
  {}

  lemma ItemsLength(items: seq<Item>, trail: bool, rest: string)
    requires items != []
    ensures var i := items[0];
            |InItems(items, trail, rest)| == |i.before| + |Text(i.node)| + |i.after|
              + if |items| > 1 || trail then 1 + |InItems(items[1..], trail, rest)| else |rest| + 1
  {
    hide Text, InItems;
    ItemsParts(items, trail, rest);
  }

  /** The mark after an item. */
  lemma AfterItem(doc: string, e: nat, items: seq<Item>, trail: bool, rest: string, f: Features)
    requires items != [] && Gap(items[0].after) && (|items| > 1 || trail || rest == "")
    requires Spells(doc, e, items[0].after + ItemsTail(items, trail, rest))
    ensures e <= |doc|
    ensures var q := e + |items[0].after|;
            && AfterComments(doc, e, f) == Token(if |items| > 1 || trail then ArraySeparator else ArrayEnd, q, q + 1)
            && (CommentKept(doc, e, f) <==> GapRegular(items[0].after, f))
            && (|items| > 1 || trail ==> Spells(doc, q + 1, InItems(items[1..], trail, rest)))
  {
    hide Spells, Gap, Blank, AfterComments, Lex, InItems;
    if |items| > 1 || trail {
      GapMark(doc, e, items[0].after, ',', InItems(items[1..], trail, rest), f);
    } else {
      assert ItemsTail(items, trail, rest) == [']'] + "";
      GapMark(doc, e, items[0].after, ']', "", f);
    }
  }

  lemma {:induction false} ParsesItems(
    doc: string, p: nat, done: seq<Value>, items: seq<Item>, trail: bool, rest: string, room: int, env: Env)
    requires Spells(doc, p, InItems(items, trail, rest)) && ItemsFit(items, room, env)
    requires ItemsClose(done == [], items, trail, rest, env.f)
    ensures p <= |doc|
    ensures ParseItems(doc, p, room, done, env) == Good(Arr(done + ItemsMeaning(items, env)), p + |InItems(items, trail, rest)|)
    ensures ItemsKept(doc, p, room, done, env) <==> ItemsRegular(items, env.f)
    decreases items, 0
  {
    hide Text, Spells, SpaceEnd, AfterComments, ParseValue, ParseItems, Meaning, ItemsMeaning, ItemsFit, Fits, ItemsProper, Blank, Gap,
         ValueGap, Stands, InItems, ItemsTail, ItemsKept, ValueKept, ItemsRegular, Regular, GapRegular, CommentKept;
    if items == [] {
      assert InItems(items, trail, rest) == rest + ([']'] + "") by { NoItems(trail, rest); }
      BlankGap(rest);
      GapMark(doc, p, rest, ']', "", env.f);
      ItemsOver(doc, p, room, done, env);
      NoMeaning(done, env);
      assert ItemsRegular(items, env.f) by { NoneRegular(env.f); }
      return;
    }
    FirstFits(done == [], items, trail, rest, room, env);
    FirstItem(doc, p, items, trail, rest, env);
    ItemsLength(items, trail, rest);
    ParsesValue(doc, p, items[0].before, items[0].node, room - 1, env);
    var e, v := p + |items[0].before| + |Text(items[0].node)|, Meaning(items[0].node, env);
    AfterItem(doc, e, items, trail, rest, env.f);
    ItemRound(doc, p, room, done, env, v, e);
    Appended(done, v, ItemsMeaning(items[1..], env));
    if |items| > 1 || trail {
      ParsesItems(doc, e + |items[0].after| + 1, done + [v], items[1..], trail, rest, room, env);
    } else {
      assert items[1..] == [];
      NoMeaning(done + [v], env);
      NoneRegular(env.f);
    }
  }

  lemma NoneRegular(f: Features)
    ensures ItemsRegular([], f) && EntriesRegular([], f)
  {}

  lemma NoMeaning(done: seq<Value>, env: Env)
    ensures done + ItemsMeaning([], env) == done
  {}

  lemma Appended(a: seq<Value>, v: Value, b: seq<Value>)
    ensures a + [v] + b == a + ([v] + b)
  {}

  // ---------------------------------------------------------------- objects

  /** What follows the first member. */
  function EntriesTail(xs: seq<Entry>, trail: bool, rest: string): string
    requires xs != []
  {
    if |xs| > 1 || trail then xs[0].comma + InEntries(xs[1..], trail, rest) else rest + "}"
  }

  /** The rest of an entry from its value on. */
  function ValueOn(xs: seq<Entry>, trail: bool, rest: string): string
    requires xs != []
  {
    xs[0].afterColon + (Text(xs[0].node) + (xs[0].after + EntriesTail(xs, trail, rest)))
  }

  lemma EntryParts(x: Entry, tail: string)
    ensures EntryText(x) + tail == (x.before + x.key) + (x.beforeColon + ([':'] + (x.afterColon + (Text(x.node) + (x.after + tail)))))
  {
    hide Text;
    var k, v := x.before + x.key, Text(x.node);
    Regroup(k + x.beforeColon + ":" + x.afterColon, v, x.after, tail);
    var w := v + (x.after + tail);
    Regroup(k + x.beforeColon, ":", x.afterColon, w);
    Regroup("", k, x.beforeColon, ":" + (x.afterColon + w));
    assert "" + k == k && "" + (k + x.beforeColon) == k + x.beforeColon && ":" == [':'];
  }

  lemma EntriesParts(xs: seq<Entry>, trail: bool, rest: string)
    requires xs != []
    ensures InEntries(xs, trail, rest) == (xs[0].before + xs[0].key) + (xs[0].beforeColon + ([':'] + ValueOn(xs, trail, rest)))
  {
    hide Text, EntryText;
    EntryParts(xs[0], EntriesTail(xs, trail, rest));
  }

  lemma FirstProper(xs: seq<Entry>, env: Env)
    requires xs != [] && EntriesProper(xs, env)
    ensures EntryProper(xs[0], env) && EntriesProper(xs[1..], env)
  {}

  /** The key of the first entry, and the colon. */
  lemma FirstKey(doc: string, p: nat, xs: seq<Entry>, trail: bool, rest: string, env: Env)
    requires xs != [] && EntriesProper(xs, env) && Spells(doc, p, InEntries(xs, trail, rest))
    ensures p <= |doc|
    ensures var x := xs[0];
            var t, q := AfterComments(doc, p, env.f), p + |x.before| + |x.key|;
            && t == Token(StringToken, p + |x.before|, q) && NameOf(doc, t, env) == Some(KeyName(x.key)) && |KeyName(x.key)| < KEY_LIMIT
            && (CommentKept(doc, p, env.f) <==> GapRegular(x.before, env.f))
            && Lex(doc, q, env.f) == Token(MemberSeparator, q + |x.beforeColon|, q + |x.beforeColon| + 1)
            && Spells(doc, q + |x.beforeColon| + 1, ValueOn(xs, trail, rest))
  {
    hide SpaceEnd, Lex, AfterComments, InEntries, ValueOn, Escaped, Decoded, Proper, Blank, Gap, ValueGap, Passes, EntriesProper, Spells,
         CommentKept, GapRegular;
    assert EntryProper(xs[0], env) by { FirstProper(xs, env); }
    var x := xs[0];
    EntriesParts(xs, trail, rest);
    var q := p + |x.before| + |x.key|;
    SpellsParts(doc, p, x.before + x.key, x.beforeColon + ([':'] + ValueOn(xs, trail, rest)));
    BlankGap(x.beforeColon);
    GapMark(doc, q, x.beforeColon, ':', ValueOn(xs, trail, rest), env.f);
    KeyToken(doc, p, x.before, x.key, env);
  }

  lemma KeyScan(doc: string, q: nat, key: string, f: Features)
    requires IsString(key) && Spells(doc, q, key)
    ensures q + 1 <= |doc| && ScanAfter(doc, key[0], q + 1, f) == Scan(StringToken, q + |key|)
  {
    hide Escaped, QuoteEnd;
    var b := key[1..|key| - 1];
    assert key[1..] == b + "\"";
    SpellsTail(doc, q, key);
    QuoteFound(doc, q + 1, b);
  }

  lemma KeyNamed(doc: string, q: nat, key: string, env: Env)
    requires StringOf(key).Some? && q + |key| <= |doc| && doc[q..q + |key|] == key
    ensures |key| >= 2 && NameOf(doc, Token(StringToken, q, q + |key|), env) == Some(KeyName(key))
  {
    hide Decoded, Escaped;
    InsideSlice(doc, q, q + |key|);
  }

  lemma KeyLex(doc: string, q: nat, key: string, env: Env)
    requires StringOf(key).Some? && Spells(doc, q, key)
    ensures q + 2 <= q + |key| <= |doc| && !IsBlank(doc[q])
    ensures var t := Token(StringToken, q, q + |key|); Lex(doc, q, env.f) == t && NameOf(doc, t, env) == Some(KeyName(key))
  {
    hide SpaceEnd, Decoded, Escaped, ScanAfter, NameOf, KeyName;
    KeyNamed(doc, q, key, env);
    KeyScan(doc, q, key, env.f);
    assert "" + key == key && Blank("") by { NoBlanks(); }
    LexAt(doc, q, "", key, env.f);
  }

  lemma KeyToken(doc: string, p: nat, g: string, key: string, env: Env)
    requires Gap(g) && StringOf(key).Some? && Spells(doc, p, g + key)
    ensures p <= |doc|
    ensures var t := Token(StringToken, p + |g|, p + |g| + |key|);
            AfterComments(doc, p, env.f) == t && p + |g| + 2 <= t.end <= |doc| && NameOf(doc, t, env) == Some(KeyName(key))
    ensures CommentKept(doc, p, env.f) <==> GapRegular(g, env.f)
  {
    hide Lex, AfterComments, Gap, Blank, Spells, StringOf, KeyName, NameOf;
    SpellsParts(doc, p, g, key);
    KeyLex(doc, p + |g|, key, env);
    GapToken(doc, p, g, env.f);
  }

  /** The value of the first entry. */
  lemma EntryValue(doc: string, p: nat, xs: seq<Entry>, trail: bool, rest: string, env: Env)
    requires xs != [] && EntryProper(xs[0], env) && (|xs| > 1 || trail || rest == "") && Spells(doc, p, ValueOn(xs, trail, rest))
    ensures Stands(doc, p, xs[0].afterColon + Text(xs[0].node))
    ensures Spells(doc, p + |xs[0].afterColon| + |Text(xs[0].node)|, xs[0].after + EntriesTail(xs, trail, rest))
  {
    hide Spells, Text, Proper, Delimited, Gap, KeyOk, ValueGap, InEntries;
    var x := xs[0];
    var t, tail := Text(x.node), x.after + EntriesTail(xs, trail, rest);
    assert ValueOn(xs, trail, rest) == (x.afterColon + t) + tail;
    SpellsParts(doc, p, x.afterColon + t, tail);
    if x.after == "" { assert Blank(x.after) by { NoBlanks(); } }
    EndsBefore(doc, p + |x.afterColon| + |t|, x.after, EntriesTail(xs, trail, rest));
  }

  /** The comma between members is followed by a gap and a key, or by a gap and the brace. */
  lemma EntriesSettled(doc: string, p: nat, xs: seq<Entry>, trail: bool, rest: string, env: Env)
    requires Spells(doc, p, InEntries(xs, trail, rest)) && EntriesProper(xs, env) && (xs == [] ==> Gap(rest))
    ensures Settled(doc, p)
  {
    hide Gap, Text, Proper, Escaped, Decoded, Blank;
    SpellsFirst(doc, p, InEntries(xs, trail, rest));
    if xs == [] {
      if rest != "" { GapFirst(rest); }
    } else {
      EntriesParts(xs, trail, rest);
      if xs[0].before != "" { GapFirst(xs[0].before); }
    }
  }

  lemma SpellsFirst(doc: string, p: nat, s: string)
    requires Spells(doc, p, s)
    ensures s != "" ==> p < |doc| && doc[p] == s[0]
  {
    if s != "" { SpellsAt(doc, p, s, 0); }
  }

  /** The comma after a member, or what passes for it. */
  lemma AfterEntry(doc: string, e: nat, xs: seq<Entry>, trail: bool, rest: string, env: Env)
    requires (|xs| > 1 || (xs != [] && trail)) && EntryProper(xs[0], env) && EntriesProper(xs[1..], env) && (xs[1..] == [] ==> Gap(rest))
    requires Spells(doc, e, xs[0].after + EntriesTail(xs, trail, rest))
    ensures e <= |doc| && (CommentKept(doc, e, env.f) <==> GapRegular(xs[0].after, env.f))
    ensures var t, q := MemberEnd(doc, e, env.f), e + |xs[0].after| + |xs[0].comma|;
            && t.Some? && t.value.end == q && t.value.kind != ObjectEnd && (t.value.kind == ArraySeparator <==> xs[0].comma == ",")
            && Spells(doc, q, InEntries(xs[1..], trail, rest))
  {
    hide Spells, Gap, Blank, AfterComments, Lex, InEntries, Text, Proper, KeyOk, ValueGap, AnyToken, Settled;
    var x, tail := xs[0], InEntries(xs[1..], trail, rest);
    if Blank(x.after) {
      assert x.comma == [','];
      GapMark(doc, e, x.after, ',', tail, env.f);
    } else {
      SpellsParts(doc, e, x.after, x.comma + tail);
      SpellsParts(doc, e + |x.after|, x.comma, tail);
      EntriesSettled(doc, e + |x.after| + |x.comma|, xs[1..], trail, rest, env);
      AnyTokenLex(doc, e + |x.after|, x.comma, env.f);
      GapToken(doc, e, x.after, env.f);
      CommentOn(doc, e, env.f);
    }
  }

  /** After a comment, the tokens go on as they would have. */
  lemma CommentOn(doc: string, p: nat, f: Features)
    requires p <= |doc| && Lex(doc, p, f).kind == CommentToken
    ensures MemberEnd(doc, p, f) == Some(AfterComments(doc, p, f))
  {
    hide Lex;
  }

  lemma LastEntry(doc: string, e: nat, x: Entry, rest: string, f: Features)
    requires Gap(x.after) && Spells(doc, e, x.after + (['}'] + ""))
    ensures e <= |doc| && (CommentKept(doc, e, f) <==> GapRegular(x.after, f))
    ensures MemberEnd(doc, e, f) == Some(Token(ObjectEnd, e + |x.after|, e + |x.after| + 1))
  {
    hide Spells, Gap, Blank, AfterComments, Lex;
    GapMark(doc, e, x.after, '}', "", f);
    if !Blank(x.after) { CommentOn(doc, e, f); }
  }

  lemma NoEntries(trail: bool, rest: string)
    ensures InEntries([], trail, rest) == rest + "}" == rest + (['}'] + "")
  {}

  /** One round of the loop over an object. */
  lemma MemberRound(doc: string, p: nat, room: int, ms: seq<Member>, last: string, env: Env, name: string, v: Value, e: nat)
    requires p <= |doc| && e <= |doc|
    requires var t := AfterComments(doc, p, env.f);
             && t.kind == StringToken && NameOf(doc, t, env) == Some(name) && |name| < KEY_LIMIT
             && (env.f.rejectDupKeys ==> !IsMember(ms, name))
             && var c := Lex(doc, t.end, env.f);
                c.kind == MemberSeparator && ParseValue(doc, c.end, room - 1, env) == Good(v, e)
    requires MemberEnd(doc, e, env.f).Some?
    ensures var r, t := ParseMembers(doc, p, room, ms, last, env), MemberEnd(doc, e, env.f).value;
            var c := Lex(doc, AfterComments(doc, p, env.f).end, env.f).end;
            var kept := MembersKept(doc, p, room, ms, last, env);
            var ms' := Put(ms, name, v);
            var here := CommentKept(doc, p, env.f) && ValueKept(doc, c, room - 1, env) && CommentKept(doc, e, env.f);
            if t.kind == ObjectEnd then r == Good(Obj(ms'), t.end) && kept == here
            else
              && r == ParseMembers(doc, t.end, room, ms', name, env)
              && kept == (here && t.kind == ArraySeparator && MembersKept(doc, t.end, room, ms', name, env))
  {
    hide ParseValue, ValueKept, AfterComments, Lex, NameOf, Put, IsMember, CommentKept, MemberEnd;
  }

  lemma MembersOver(doc: string, p: nat, room: int, ms: seq<Member>, last: string, env: Env)
    requires p <= |doc| && AfterComments(doc, p, env.f).kind == ObjectEnd && (last == "" || env.f.allowTrailingCommas)
    ensures ParseMembers(doc, p, room, ms, last, env) == Good(Obj(ms), AfterComments(doc, p, env.f).end)
    ensures MembersKept(doc, p, room, ms, last, env) <==> CommentKept(doc, p, env.f) && (ms == [] || env.f.allowTrailingCommas)
  {
    hide AfterComments, CommentKept;
  }

  lemma FirstEntryFits(ms: seq<Member>, last: string, xs: seq<Entry>, trail: bool, rest: string, room: int, env: Env)
    requires EntriesFit(ms, xs, room, env) && EntriesClose(ms == [], last, xs, trail, rest, env.f) && xs != []
    ensures Fits(xs[0].node, room - 1, env) && EntriesProper(xs, env) && EntryProper(xs[0], env) && EntriesProper(xs[1..], env)
    ensures Gap(xs[0].after) && ValueGap(xs[0].afterColon, env.f)
    ensures var name, v := KeyName(xs[0].key), Meaning(xs[0].node, env);
            && EntriesFit(Put(ms, name, v), xs[1..], room, env) && (env.f.rejectDupKeys ==> !IsMember(ms, name))
            && EntriesMeaning(ms, xs, env) == EntriesMeaning(Put(ms, name, v), xs[1..], env)
            && if |xs| > 1 || trail then EntriesClose(false, name, xs[1..], trail, rest, env.f) && (xs[1..] == [] ==> Gap(rest))
               else rest == "" && xs[0].comma == "," && !trail
    ensures EntriesRegular(xs, env.f) <==>
            && GapRegular(xs[0].before, env.f) && GapRegular(xs[0].after, env.f) && xs[0].comma == "," && Regular(xs[0].node, env.f)
            && EntriesRegular(xs[1..], env.f)
  {
    hide Proper, Depth, KeysDiffer, Meaning, IsMember, Put, KeyName, Gap, Blank, KeyOk, ValueGap, Passes, GapRegular, Regular;
  }

  lemma EntriesLength(xs: seq<Entry>, trail: bool, rest: string)
    requires xs != []
    ensures var x := xs[0];
            |InEntries(xs, trail, rest)| == |x.before| + |x.key| + |x.beforeColon| + 1 + |x.afterColon| + |Text(x.node)| + |x.after|
              + if |xs| > 1 || trail then |x.comma| + |InEntries(xs[1..], trail, rest)| else |rest| + 1
  {
    hide Text, InEntries;
    EntriesParts(xs, trail, rest);
  }

  lemma PutSome(ms: seq<Member>, key: string, v: Value)
    ensures Put(ms, key, v) != []
  {}

  lemma {:induction false} ParsesMembers(
    doc: string, p: nat, ms: seq<Member>, last: string, xs: seq<Entry>, trail: bool, rest: string, room: int, env: Env)
    requires Spells(doc, p, InEntries(xs, trail, rest)) && EntriesFit(ms, xs, room, env)
    requires EntriesClose(ms == [], last, xs, trail, rest, env.f) && (ms == [] ==> last == "")
    ensures p <= |doc|
    ensures ParseMembers(doc, p, room, ms, last, env) == Good(Obj(EntriesMeaning(ms, xs, env)), p + |InEntries(xs, trail, rest)|)
    ensures MembersKept(doc, p, room, ms, last, env) <==> EntriesRegular(xs, env.f) && EndRegular(trail, rest, env.f)
    decreases xs, 0
  {
    hide Text, Spells, SpaceEnd, AfterComments, ParseValue, Meaning, EntriesMeaning, EntriesFit, Fits, EntriesProper, EntryProper, Blank,
         Gap, ValueGap, Stands, Put, IsMember, KeyName, Lex, NameOf, MemberEnd, ParseMembers, MembersKept, ValueKept, CommentKept, InEntries,
         ValueOn, EntriesTail, EntriesRegular, Regular, GapRegular;
    if xs == [] {
      assert InEntries(xs, trail, rest) == rest + (['}'] + "") by { NoEntries(trail, rest); }
      GapMark(doc, p, rest, '}', "", env.f);
      GapKept(doc, p, rest, env.f);
      MembersOver(doc, p, room, ms, last, env);
      NoEntriesMeaning(ms, env);
      NoneRegular(env.f);
      return;
    }
    var x := xs[0];
    FirstEntryFits(ms, last, xs, trail, rest, room, env);
    FirstKey(doc, p, xs, trail, rest, env);
    EntriesLength(xs, trail, rest);
    var c := p + |x.before| + |x.key| + |x.beforeColon| + 1;
    EntryValue(doc, c, xs, trail, rest, env);
    ParsesValue(doc, c, x.afterColon, x.node, room - 1, env);
    var e, name, v := c + |x.afterColon| + |Text(x.node)|, KeyName(x.key), Meaning(x.node, env);
    PutSome(ms, name, v);
    if |xs| > 1 || trail {
      AfterEntry(doc, e, xs, trail, rest, env);
      MemberRound(doc, p, room, ms, last, env, name, v, e);
      ParsesMembers(doc, e + |x.after| + |x.comma|, Put(ms, name, v), name, xs[1..], trail, rest, room, env);
    } else {
      assert EntriesTail(xs, trail, rest) == ['}'] + "" by { LastTail(xs, trail, rest); }
      LastEntry(doc, e, x, rest, env.f);
      MemberRound(doc, p, room, ms, last, env, name, v, e);
      assert xs[1..] == [];
      NoEntriesMeaning(Put(ms, name, v), env);
      NoneRegular(env.f);
      EmptyRegular(env.f);
    }
  }

  lemma LastTail(xs: seq<Entry>, trail: bool, rest: string)
    requires |xs| == 1 && !trail && rest == ""
    ensures EntriesTail(xs, trail, rest) == ['}'] + ""
  {}

  lemma EmptyRegular(f: Features)
    ensures GapRegular("", f)
  {}

  /** A comment is skipped exactly if there is one in the gap. */
  lemma GapKept(doc: string, p: nat, g: string, f: Features)
    requires p <= |doc| && (Blank(g) <==> Lex(doc, p, f).kind != CommentToken)
    ensures CommentKept(doc, p, f) <==> GapRegular(g, f)
  {
    hide Lex, Blank;
  }

  lemma NoEntriesMeaning(ms: seq<Member>, env: Env)
    ensures EntriesMeaning(ms, [], env) == ms
  {}

  // ---------------------------------------------------------------- values

  lemma InsideFits(n: Node, room: int, env: Env)
    requires Fits(n, room, env)
    ensures room > 0 && (n.Atom? ==> AtomOf(n.text, env).Some?)
    ensures n.List? ==> ItemsFit(n.items, room, env) && ItemsClose(true, n.items, n.trail, n.rest, env.f)
    ensures n.Dict? ==> EntriesFit([], n.entries, room, env) && EntriesClose(true, "", n.entries, n.trail, n.rest, env.f)
  {
    hide AtomOf, ItemsClose, EntriesClose;
  }

  lemma StandsMark(doc: string, p: nat, g: string, c: char, inside: string, n: Node, f: Features)
    requires ValueGap(g, f) && c in {'{', '['} && Text(n) == [c] + inside && Stands(doc, p, g + Text(n))
    ensures p <= |doc| && ValueToken(doc, p, f) == Token(Mark(c), p + |g|, p + |g| + 1)
    ensures Spells(doc, p + |g| + 1, inside)
  {
    hide Text, Blank, Gap, ValueToken, Delimited, Lex, AfterComments;
    if !f.allowComments { BlankGap(g); }
    GapMark(doc, p, g, c, inside, f);
  }

  /** The text of a tree, after white space and comments, is read as what the tree means; and the rules are
      kept in reading it exactly if the tree is regular. */
  lemma {:induction false} ParsesValue(doc: string, p: nat, g: string, n: Node, room: int, env: Env)
    requires ValueGap(g, env.f) && Stands(doc, p, g + Text(n)) && Fits(n, room, env)
    ensures p <= |doc| && ParseValue(doc, p, room, env) == Good(Meaning(n, env), p + |g| + |Text(n)|)
    ensures ValueKept(doc, p, room, env) <==> Regular(n, env.f)
    decreases n, 1
  {
    hide SpaceEnd, ParseItems, ParseMembers, ItemsKept, MembersKept, ParseScalar, ValueToken, Blank, Gap, ValueGap, Stands, Fits, InItems,
         InEntries, AtomOf, ItemsFit, EntriesFit, ItemsClose, EntriesClose, ItemsMeaning, EntriesMeaning, ItemsRegular, EntriesRegular;
    InsideFits(n, room, env);
    match n
    case Atom(t) => ParsesAtom(doc, p, g, t, room, env);
    case List(items, trail, rest) =>
      assert Text(n) == ['['] + InItems(items, trail, rest);
      StandsMark(doc, p, g, '[', InItems(items, trail, rest), n, env.f);
      ParsesItems(doc, p + |g| + 1, [], items, trail, rest, room, env);
      assert [] + ItemsMeaning(items, env) == ItemsMeaning(items, env);
    case Dict(entries, trail, rest) =>
      assert Text(n) == ['{'] + InEntries(entries, trail, rest);
      StandsMark(doc, p, g, '{', InEntries(entries, trail, rest), n, env.f);
      ParsesMembers(doc, p + |g| + 1, [], "", entries, trail, rest, room, env);
  }
}
