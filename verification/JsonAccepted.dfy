/** Which documents are accepted. Without the extensions to the syntax they are exactly the texts of well
    formed trees; and the tree is regular exactly if the reader let nothing pass that it should not. */
module JsonAccepted {
  import opened Numbers
  import opened HttpTypes
  import opened Options
  import opened JsonValues
  import opened JsonNumbers
  import opened JsonQuoting
  import opened JsonTokens
  import opened JsonParse
  import opened JsonLayout
  import opened JsonSteps
  import opened JsonTrees

  /** None of the features that add tokens. */
  predicate Plain(f: Features) {
    !f.allowDroppedNullPlaceholders && !f.allowNumericKeys && !f.allowSingleQuotes && !f.allowSpecialFloats
  }

  // ---------------------------------------------------------------- tokens have their texts

  /** The text of a token that is read without extensions. */
  predicate TokenText(kind: TokenKind, w: string) {
    match kind
    case ObjectBegin => w == "{" case ObjectEnd => w == "}" case ArrayBegin => w == "[" case ArrayEnd => w == "]"
    case ArraySeparator => w == "," case MemberSeparator => w == ":"
    case TrueToken => w == "true" case FalseToken => w == "false" case NullToken => w == "null"
    case StringToken => IsString(w)
    case NumberToken => IsNumber(w)
    case EndOfStream => w == "" || w == "\0"
    case ErrorToken => true
    case _ => false
  }

  lemma ScanText(doc: string, a: nat, f: Features)
    requires a < |doc| && Plain(f) && !IsBlank(doc[a])
    ensures var s := ScanAfter(doc, doc[a], a + 1, f);
            a < s.end <= |doc| && (s.kind == CommentToken || TokenText(s.kind, doc[a..s.end]))
  {
    hide QuoteEnd, NumberEnd, StarEnd, LineEnd, Escaped, Spells;
    ScanEnds(doc, doc[a], a + 1, f);
    var c := doc[a];
    assert doc[a..a + 1] == [c];
    if c == 't' && Spells(doc, a + 1, "rue") { WordText(doc, a, c, "rue"); assert [c] + "rue" == "true"; }
    else if c == 'f' && Spells(doc, a + 1, "alse") { WordText(doc, a, c, "alse"); assert [c] + "alse" == "false"; }
    else if c == 'n' && Spells(doc, a + 1, "ull") { WordText(doc, a, c, "ull"); assert [c] + "ull" == "null"; }
    else if c == '"' && QuoteEnd(doc, a + 1, '"').Some? { QuoteText(doc, a); }
    else if c == '-' || c == '+' || IsNum(c) { NumberLongest(doc, a); }
    else {}
  }

  /** A token that is read, at its place. */
  lemma LexText(doc: string, p: nat, f: Features)
    requires p <= |doc| && Plain(f) && Lex(doc, p, f).start < |doc| && Lex(doc, p, f).kind != CommentToken
    ensures var t := Lex(doc, p, f); t.start < t.end && TokenText(t.kind, doc[t.start..t.end])
  {
    hide ScanAfter, SpaceEnd, TokenText;
    SpaceIsBlank(doc, p);
    ScanText(doc, SpaceEnd(doc, p), f);
  }

  lemma TokenSpells(doc: string, p: nat, t: Token)
    requires p <= t.start <= t.end <= |doc|
    ensures Spells(doc, p, doc[p..t.start] + doc[t.start..t.end])
  {
    assert doc[p..t.end] == doc[p..t.start] + doc[t.start..t.end];
  }

  /** A token with the gap before it. */
  lemma GapTokenSound(doc: string, p: nat, f: Features) returns (g: string, w: string)
    requires p <= |doc| && Plain(f) && AfterComments(doc, p, f).start < |doc|
    ensures var t := AfterComments(doc, p, f);
            && Gap(g) && (Blank(g) <==> Lex(doc, p, f).kind != CommentToken) && TokenText(t.kind, w) && w == doc[t.start..t.end]
            && Spells(doc, p, g + w) && t.start == p + |g| && t.end == p + |g| + |w|
  {
    hide Lex, AfterComments, TokenText, Gap, Blank;
    var t := AfterComments(doc, p, f);
    g, w := doc[p..t.start], doc[t.start..t.end];
    GapSound(doc, p, f);
    LexText(doc, t.start, f);
    TokenSpells(doc, p, t);
  }

  lemma BlankTokenSound(doc: string, p: nat, f: Features) returns (g: string, w: string)
    requires p <= |doc| && Plain(f) && Lex(doc, p, f).start < |doc| && Lex(doc, p, f).kind != CommentToken
    ensures var t := Lex(doc, p, f);
            && Blank(g) && TokenText(t.kind, w) && w == doc[t.start..t.end]
            && Spells(doc, p, g + w) && t.start == p + |g| && t.end == p + |g| + |w|
  {
    hide ScanAfter, SpaceEnd, TokenText, Blank;
    var t := Lex(doc, p, f);
    g, w := doc[p..t.start], doc[t.start..t.end];
    SpaceIsBlank(doc, p);
    LexText(doc, p, f);
    TokenSpells(doc, p, t);
  }

  lemma ValueTokenSound(doc: string, p: nat, f: Features) returns (g: string, w: string)
    requires p <= |doc| && Plain(f) && ValueToken(doc, p, f).start < |doc| && ValueToken(doc, p, f).kind != CommentToken
    ensures var t := ValueToken(doc, p, f);
            && ValueGap(g, f) && TokenText(t.kind, w) && w == doc[t.start..t.end]
            && Spells(doc, p, g + w) && t.start == p + |g| && t.end == p + |g| + |w|
  {
    hide Lex, AfterComments, TokenText, Gap, Blank;
    if f.allowComments { g, w := GapTokenSound(doc, p, f); } else { g, w := BlankTokenSound(doc, p, f); }
  }

  // ---------------------------------------------------------------- values have their trees

  /** The text of a tree stands at `p`, a gap before it, and the tree means what was read. */
  predicate Explains(doc: string, p: nat, g: string, n: Node, room: int, env: Env, r: Outcome)
    requires r.Good?
  {
    && ValueGap(g, env.f) && Fits(n, room, env) && Meaning(n, env) == r.value
    && Spells(doc, p, g + Text(n)) && r.end == p + |g| + |Text(n)|
  }

  lemma ScalarSound(doc: string, t: Token, w: string, env: Env)
    requires t.start <= t.end <= |doc| && (t.kind == StringToken ==> t.start + 2 <= t.end) && (t.kind != EndOfStream ==> t.start < t.end)
    requires Plain(env.f) && TokenText(t.kind, w) && w == doc[t.start..t.end] && ParseScalar(doc, t, env).Good?
    ensures var r := ParseScalar(doc, t, env); AtomOf(w, env) == Some(r.value) && r.end == t.end
  {
    hide NumberOf, NumberEnd, Decoded, Escaped;
    if t.kind == StringToken { InsideSlice(doc, t.start, t.end); }
  }

  /** A value does not begin at the end of the document, nor with a comment. */
  lemma ValueTokenThere(doc: string, p: nat, room: int, env: Env)
    requires p <= |doc| && ParseValue(doc, p, room, env).Good?
    ensures room > 0 && ValueToken(doc, p, env.f).start < |doc| && ValueToken(doc, p, env.f).kind !in {CommentToken, EndOfStream}
  {
    hide ParseItems, ParseMembers, ValueToken;
  }

  lemma {:induction false} ValueSound(doc: string, p: nat, room: int, env: Env) returns (g: string, n: Node)
    requires p <= |doc| && Plain(env.f) && ParseValue(doc, p, room, env).Good?
    ensures Explains(doc, p, g, n, room, env, ParseValue(doc, p, room, env))
    decreases |doc| - p, 0
  {
    hide ParseItems, ParseMembers, ParseScalar, ValueToken, TokenText, Gap, Blank, ValueGap, Plain, Spells, AtomOf;
    ValueTokenThere(doc, p, room, env);
    var w;
    g, w := ValueTokenSound(doc, p, env.f);
    var t := ValueToken(doc, p, env.f);
    MarkText(t.kind, w);
    if t.kind == ObjectBegin {
      var xs, trail, rest := MembersSound(doc, t.end, room, [], "", env);
      n := Dict(xs, trail, rest);
      DictExplains(doc, p, g, xs, trail, rest, room, env);
    } else if t.kind == ArrayBegin {
      var items, trail, rest := ItemsSound(doc, t.end, room, [], env);
      n := List(items, trail, rest);
      ListExplains(doc, p, g, items, trail, rest, room, env);
    } else {
      ScalarSound(doc, t, w, env);
      n := Atom(w);
    }
  }

  lemma MarkText(k: TokenKind, w: string)
    requires TokenText(k, w)
    ensures k == ObjectBegin ==> w == "{"
    ensures k == ArrayBegin ==> w == "["
    ensures k == ArrayEnd ==> w == [']']
    ensures k == ObjectEnd ==> w == ['}']
    ensures k == ArraySeparator ==> w == [',']
    ensures k == MemberSeparator ==> w == [':']
    ensures k == StringToken ==> IsString(w)
  {}

  lemma ListExplains(doc: string, p: nat, g: string, items: seq<Item>, trail: bool, rest: string, room: int, env: Env)
    requires room > 0 && Spells(doc, p, g + "[") && Spells(doc, p + |g| + 1, InItems(items, trail, rest))
    requires ItemsFit(items, room, env) && ItemsClose(true, items, trail, rest, env.f)
    ensures Fits(List(items, trail, rest), room, env) && Spells(doc, p, g + Text(List(items, trail, rest)))
    ensures |Text(List(items, trail, rest))| == 1 + |InItems(items, trail, rest)|
  {
    hide Spells, InItems, ItemsProper, ItemsDepth, ItemsDiffer, ItemsClose;
    SpellsParts(doc, p, g + "[", InItems(items, trail, rest));
    assert (g + "[") + InItems(items, trail, rest) == g + ("[" + InItems(items, trail, rest));
  }

  lemma DictExplains(doc: string, p: nat, g: string, xs: seq<Entry>, trail: bool, rest: string, room: int, env: Env)
    requires room > 0 && Spells(doc, p, g + "{") && Spells(doc, p + |g| + 1, InEntries(xs, trail, rest))
    requires EntriesFit([], xs, room, env) && EntriesClose(true, "", xs, trail, rest, env.f)
    ensures Fits(Dict(xs, trail, rest), room, env) && Spells(doc, p, g + Text(Dict(xs, trail, rest)))
    ensures |Text(Dict(xs, trail, rest))| == 1 + |InEntries(xs, trail, rest)|
  {
    hide Spells, InEntries, EntriesProper, EntriesDepth, EntriesDiffer, EntriesClose;
    SpellsParts(doc, p, g + "{", InEntries(xs, trail, rest));
    assert (g + "{") + InEntries(xs, trail, rest) == g + ("{" + InEntries(xs, trail, rest));
  }

  // ---------------------------------------------------------------- arrays

  /** The rest of an array, after the items `done`. */
  predicate ItemsExplain(
    doc: string, p: nat, done: seq<Value>, items: seq<Item>, trail: bool, rest: string, room: int, env: Env, r: Outcome)
    requires r.Good?
  {
    && ItemsFit(items, room, env) && r.value == Arr(done + ItemsMeaning(items, env))
    && ItemsClose(done == [], items, trail, rest, env.f)
    && Spells(doc, p, InItems(items, trail, rest)) && r.end == p + |InItems(items, trail, rest)|
  }

  lemma SpellsJoin(doc: string, p: nat, a: string, b: string)
    requires Spells(doc, p, a) && Spells(doc, p + |a|, b)
    ensures Spells(doc, p, a + b)
  {
    SpellsParts(doc, p, a, b);
  }

  lemma ItemsEnd(doc: string, p: nat, done: seq<Value>, rest: string, room: int, env: Env)
    requires room > 0 && Blank(rest) && Spells(doc, p, rest + [']'])
    requires done == [] || (env.f.allowTrailingCommas && !env.f.allowDroppedNullPlaceholders)
    ensures ItemsExplain(doc, p, done, [], done != [], rest, room, env, Good(Arr(done), p + |rest| + 1))
  {
    hide Spells, Blank;
    NoItems(done != [], rest);
    NoMeaning(done, env);
  }

  /** The first item of the rest of an array, with the mark after it. */
  predicate ItemStands(doc: string, p: nat, i: Item, c: char, room: int, env: Env) {
    && ValueGap(i.before, env.f) && Gap(i.after) && Fits(i.node, room - 1, env)
    && Spells(doc, p, i.before + Text(i.node)) && Spells(doc, p + |i.before| + |Text(i.node)|, i.after + [c])
  }

  /** One item more, in front of the rest of an array. */
  lemma ItemsGrow(
    doc: string, p: nat, done: seq<Value>, i: Item, items: seq<Item>, trail: bool, rest: string, room: int, env: Env, r: Outcome, e: nat)
    requires ItemStands(doc, p, i, ',', room, env) && r.Good? && e == p + |i.before| + |Text(i.node)|
    requires ItemsExplain(doc, e + |i.after| + 1, done + [Meaning(i.node, env)], items, trail, rest, room, env, r)
    ensures ItemsExplain(doc, p, done, [i] + items, trail, rest, room, env, r)
  {
    hide Spells, Text, Proper, Depth, KeysDiffer, Blank, Gap, ValueGap, InItems, Meaning;
    var all := [i] + items;
    assert all[1..] == items && (|all| > 1 || trail);
    ItemsParts(all, trail, rest);
    var tail := ItemsTail(all, trail, rest);
    assert tail == [','] + InItems(items, trail, rest);
    SpellsJoin(doc, e, i.after + [','], InItems(items, trail, rest));
    assert (i.after + [',']) + InItems(items, trail, rest) == i.after + tail;
    SpellsJoin(doc, p, i.before + Text(i.node), i.after + tail);
    assert (i.before + Text(i.node)) + (i.after + tail) == InItems(all, trail, rest);
    Appended(done, Meaning(i.node, env), ItemsMeaning(items, env));
    assert ItemsProper(all, env) && ItemsDepth(all) < room;
    assert env.f.rejectDupKeys ==> ItemsDiffer(all, env);
  }

  /** The last item, with the bracket after it. */
  lemma ItemsLast(doc: string, p: nat, done: seq<Value>, i: Item, room: int, env: Env, e: nat)
    requires ItemStands(doc, p, i, ']', room, env) && e == p + |i.before| + |Text(i.node)|
    ensures ItemsExplain(doc, p, done, [i], false, "", room, env, Good(Arr(done + [Meaning(i.node, env)]), e + |i.after| + 1))
  {
    hide Spells, Text, Proper, Depth, KeysDiffer, Blank, Gap, ValueGap, InItems, Meaning;
    ItemsParts([i], false, "");
    assert ItemsTail([i], false, "") == "" + "]" == [']'];
    SpellsJoin(doc, p, i.before + Text(i.node), i.after + [']']);
    assert (i.before + Text(i.node)) + (i.after + [']']) == InItems([i], false, "");
    assert [i][1..] == [];
    assert ItemsMeaning([i], env) == [Meaning(i.node, env)] + [] == [Meaning(i.node, env)];
    assert ItemsDepth([i]) == Max(Depth(i.node), ItemsDepth([i][1..])) == Max(Depth(i.node), 0);
    assert ItemsProper([i], env) && ItemsDepth([i]) < room;
    assert env.f.rejectDupKeys ==> ItemsDiffer([i], env);
    assert |InItems([i], false, "")| == |i.before| + |Text(i.node)| + |i.after| + 1;
  }

  predicate ItemsClosing(doc: string, q: nat, done: seq<Value>, f: Features) {
    CharAt(doc, q) == ']' && (done == [] || (f.allowTrailingCommas && !f.allowDroppedNullPlaceholders))
  }

  /** What can have happened when the rest of an array was read. */
  lemma ItemsCases(doc: string, p: nat, room: int, done: seq<Value>, env: Env)
    requires p <= |doc| && ParseItems(doc, p, room, done, env).Good?
    ensures var q, all := SpaceEnd(doc, p), ParseItems(doc, p, room, done, env);
            if ItemsClosing(doc, q, done, env.f) then all == Good(Arr(done), q + 1)
            else
              var r := ParseValue(doc, p, room - 1, env);
              r.Good? && var t := AfterComments(doc, r.end, env.f);
              if t.kind == ArrayEnd then all == Good(Arr(done + [r.value]), t.end)
              else t.kind == ArraySeparator && all == ParseItems(doc, t.end, room, done + [r.value], env)
  {
    hide ParseValue, ValueKept, SpaceEnd, AfterComments;
    ValueSkips(doc, p, room - 1, env);
  }

  lemma {:induction false} ItemsSound(doc: string, p: nat, room: int, done: seq<Value>, env: Env)
    returns (items: seq<Item>, trail: bool, rest: string)
    requires p <= |doc| && Plain(env.f) && room > 0 && ParseItems(doc, p, room, done, env).Good?
    ensures ItemsExplain(doc, p, done, items, trail, rest, room, env, ParseItems(doc, p, room, done, env))
    decreases |doc| - p, 1
  {
    hide ParseValue, ParseItems, Lex, AfterComments, SpaceEnd, TokenText, Blank, Gap, ValueGap, Plain, Spells, Meaning, Fits, Text,
         ItemsExplain;
    var q := SpaceEnd(doc, p);
    ItemsCases(doc, p, room, done, env);
    if ItemsClosing(doc, q, done, env.f) {
      SpaceSpells(doc, p);
      CharSpells(doc, q, ']');
      SpellsJoin(doc, p, doc[p..q], [']']);
      ItemsEnd(doc, p, done, doc[p..q], room, env);
      return [], done != [], doc[p..q];
    }
    var g, n := ValueSound(doc, p, room - 1, env);
    var r := ParseValue(doc, p, room - 1, env);
    var after, w := GapTokenSound(doc, r.end, env.f);
    var t := AfterComments(doc, r.end, env.f);
    MarkText(t.kind, w);
    var i := Item(g, n, after);
    if t.kind == ArrayEnd {
      ItemsLast(doc, p, done, i, room, env, r.end);
      return [i], false, "";
    }
    items, trail, rest := ItemsSound(doc, t.end, room, done + [r.value], env);
    ItemsGrow(doc, p, done, i, items, trail, rest, room, env, ParseItems(doc, t.end, room, done + [r.value], env), r.end);
    items := [i] + items;
  }

  lemma SpaceSpells(doc: string, p: nat)
    requires p <= |doc|
    ensures Spells(doc, p, doc[p..SpaceEnd(doc, p)]) && Blank(doc[p..SpaceEnd(doc, p)]) && p + |doc[p..SpaceEnd(doc, p)]| == SpaceEnd(doc, p)
  {
    SpaceIsBlank(doc, p);
  }

  lemma CharSpells(doc: string, q: nat, c: char)
    requires CharAt(doc, q) == c && c != '\0'
    ensures Spells(doc, q, [c])
  {}

  // ---------------------------------------------------------------- objects

  /** The rest of an object, after the members `ms`, the last of the name `last`. */
  predicate EntriesExplain(
    doc: string, p: nat, ms: seq<Member>, last: string, xs: seq<Entry>, trail: bool, rest: string, room: int, env: Env, r: Outcome)
    requires r.Good?
  {
    && EntriesFit(ms, xs, room, env) && r.value == Obj(EntriesMeaning(ms, xs, env))
    && EntriesClose(ms == [], last, xs, trail, rest, env.f)
    && Spells(doc, p, InEntries(xs, trail, rest)) && r.end == p + |InEntries(xs, trail, rest)|
  }

  lemma EntriesEnd(doc: string, p: nat, ms: seq<Member>, last: string, rest: string, room: int, env: Env)
    requires room > 0 && Gap(rest) && Spells(doc, p, rest + ['}']) && (last == "" || env.f.allowTrailingCommas)
    ensures EntriesExplain(doc, p, ms, last, [], ms != [], rest, room, env, Good(Obj(ms), p + |rest| + 1))
  {
    hide Spells, Gap;
    NoEntries(ms != [], rest);
    NoEntriesMeaning(ms, env);
  }

  /** A member's key, colon and value, and the gap after it. */
  predicate EntryStands(doc: string, p: nat, x: Entry, room: int, env: Env) {
    && EntryProper(x, env) && Fits(x.node, room - 1, env)
    && Spells(doc, p, x.before + x.key) && Spells(doc, p + |x.before| + |x.key|, x.beforeColon + [':'])
    && Spells(doc, p + |x.before| + |x.key| + |x.beforeColon| + 1, x.afterColon + Text(x.node))
  }

  function ValueEnd(p: nat, x: Entry): nat { p + |x.before| + |x.key| + |x.beforeColon| + 1 + |x.afterColon| + |Text(x.node)| }

  lemma EntrySpells(doc: string, p: nat, x: Entry, room: int, env: Env, tail: string)
    requires EntryStands(doc, p, x, room, env) && Spells(doc, ValueEnd(p, x), x.after + tail)
    ensures Spells(doc, p, (x.before + x.key) + (x.beforeColon + ([':'] + (x.afterColon + (Text(x.node) + (x.after + tail))))))
  {
    hide Spells, Text, Proper, Fits, EntryProper;
    var t := Text(x.node);
    SpellsJoin(doc, p + |x.before| + |x.key| + |x.beforeColon| + 1, x.afterColon + t, x.after + tail);
    var v := x.afterColon + (t + (x.after + tail));
    assert (x.afterColon + t) + (x.after + tail) == v;
    SpellsJoin(doc, p + |x.before| + |x.key|, x.beforeColon + [':'], v);
    assert (x.beforeColon + [':']) + v == x.beforeColon + ([':'] + v);
    SpellsJoin(doc, p, x.before + x.key, x.beforeColon + ([':'] + v));
  }

  /** One member more, in front of the rest of an object. */
  lemma EntriesGrow(
    doc: string, p: nat, ms: seq<Member>, last: string, x: Entry, xs: seq<Entry>, trail: bool, rest: string, room: int, env: Env, r: Outcome)
    requires EntryStands(doc, p, x, room, env) && Spells(doc, ValueEnd(p, x), x.after + x.comma) && r.Good?
    requires env.f.rejectDupKeys ==> !IsMember(ms, KeyName(x.key))
    requires var ms' := Put(ms, KeyName(x.key), Meaning(x.node, env));
             EntriesExplain(doc, ValueEnd(p, x) + |x.after| + |x.comma|, ms', KeyName(x.key), xs, trail, rest, room, env, r)
    ensures EntriesExplain(doc, p, ms, last, [x] + xs, trail, rest, room, env, r)
  {
    hide Spells, Text, Proper, Depth, KeysDiffer, Blank, Gap, ValueGap, Passes, InEntries, Meaning, EntryStands, KeyName, KeyOk, Put, IsMember,
         EntryText;
    var all := [x] + xs;
    PutSome(ms, KeyName(x.key), Meaning(x.node, env));
    assert all[1..] == xs && EntryProper(x, env) && Fits(x.node, room - 1, env) by { StandsFits(doc, p, x, room, env); }
    assert |all| > 1 || trail;
    var tail := EntriesTail(all, trail, rest);
    SpellsJoin(doc, ValueEnd(p, x), x.after + x.comma, InEntries(xs, trail, rest));
    assert (x.after + x.comma) + InEntries(xs, trail, rest) == x.after + tail;
    EntrySpells(doc, p, x, room, env, tail);
    EntriesParts(all, trail, rest);
    assert |InEntries(all, trail, rest)| == ValueEnd(p, x) - p + |x.after| + |x.comma| + |InEntries(xs, trail, rest)|;
  }

  lemma StandsFits(doc: string, p: nat, x: Entry, room: int, env: Env)
    requires EntryStands(doc, p, x, room, env)
    ensures EntryProper(x, env) && Fits(x.node, room - 1, env)
  {}

  /** The last member, with the brace after it. */
  lemma EntriesLast(doc: string, p: nat, ms: seq<Member>, last: string, x: Entry, room: int, env: Env)
    requires EntryStands(doc, p, x, room, env) && Spells(doc, ValueEnd(p, x), x.after + ['}']) && x.comma == ","
    requires env.f.rejectDupKeys ==> !IsMember(ms, KeyName(x.key))
    ensures EntriesExplain(
              doc, p, ms, last, [x], false, "", room, env,
              Good(Obj(Put(ms, KeyName(x.key), Meaning(x.node, env))), ValueEnd(p, x) + |x.after| + 1))
  {
    hide Spells, Text, Proper, Depth, KeysDiffer, Blank, Gap, ValueGap, Passes, InEntries, Meaning, EntryStands, KeyName, KeyOk, Put, IsMember,
         EntryText;
    StandsFits(doc, p, x, room, env);
    assert [x][1..] == [];
    assert EntriesTail([x], false, "") == "" + "}" == ['}'];
    EntrySpells(doc, p, x, room, env, ['}']);
    EntriesParts([x], false, "");
    assert EntriesDepth([x]) == Max(Depth(x.node), EntriesDepth([x][1..])) == Max(Depth(x.node), 0);
    assert EntriesProper([x], env) && EntriesDepth([x]) < room;
    NoEntriesMeaning(Put(ms, KeyName(x.key), Meaning(x.node, env)), env);
    assert env.f.rejectDupKeys ==> EntriesDiffer(ms, [x], env);
    assert |InEntries([x], false, "")| == ValueEnd(p, x) - p + |x.after| + 1;
  }

  predicate MembersClosing(doc: string, p: nat, last: string, f: Features)
    requires p <= |doc|
  {
    AfterComments(doc, p, f).kind == ObjectEnd && (last == "" || f.allowTrailingCommas)
  }

  /** What can have happened when the rest of an object was read. */
  lemma MembersCases(doc: string, p: nat, room: int, ms: seq<Member>, last: string, env: Env)
    requires p <= |doc| && ParseMembers(doc, p, room, ms, last, env).Good?
    ensures AfterComments(doc, p, env.f).start < |doc|
    ensures var t, all := AfterComments(doc, p, env.f), ParseMembers(doc, p, room, ms, last, env);
            if MembersClosing(doc, p, last, env.f) then all == Good(Obj(ms), t.end)
            else
              var name := NameOf(doc, t, env);
              && name.Some? && |name.value| < KEY_LIMIT && (env.f.rejectDupKeys ==> !IsMember(ms, name.value))
              && var c := Lex(doc, t.end, env.f);
              c.kind == MemberSeparator
              && var r := ParseValue(doc, c.end, room - 1, env);
              r.Good? && var e := MemberEnd(doc, r.end, env.f);
              e.Some?
              && var ms' := Put(ms, name.value, r.value);
              all == if e.value.kind == ObjectEnd then Good(Obj(ms'), e.value.end)
                     else ParseMembers(doc, e.value.end, room, ms', name.value, env)
  {
    hide ParseValue, Lex, AfterComments, MemberEnd, Put, IsMember, Decoded, NumberOf;
  }

  /** An object does not go on at the end of the document. */
  lemma MembersAtEnd(doc: string, p: nat, room: int, ms: seq<Member>, last: string, env: Env)
    requires p <= |doc| && ParseMembers(doc, p, room, ms, last, env).Good?
    ensures p < |doc|
  {
    hide ParseValue, Lex, AfterComments, NameOf, MemberEnd, Put, IsMember;
    MembersCases(doc, p, room, ms, last, env);
  }

  lemma KeySound(doc: string, t: Token, w: string, env: Env)
    requires t.start <= t.end <= |doc| && (t.kind == StringToken ==> t.start + 2 <= t.end) && w == doc[t.start..t.end]
    requires TokenText(t.kind, w) && Plain(env.f) && NameOf(doc, t, env).Some?
    ensures StringOf(w).Some? && KeyName(w) == NameOf(doc, t, env).value
  {
    hide Decoded, Escaped, NumberEnd, NumberOf;
    if t.kind == StringToken { InsideSlice(doc, t.start, t.end); }
  }

  /** The token after a member: the brace, a comma, or what passes for one. */
  lemma EndSound(doc: string, p: nat, f: Features) returns (after: string, w: string)
    requires p <= |doc| && Plain(f) && MemberEnd(doc, p, f).Some?
    requires MemberEnd(doc, p, f).value.kind == ObjectEnd || MemberEnd(doc, p, f).value.end < |doc|
    ensures var t := MemberEnd(doc, p, f).value;
            && Gap(after) && Spells(doc, p, after + w) && t.end == p + |after| + |w|
            && if t.kind == ObjectEnd then w == ['}'] else Passes(after, w, f)
  {
    hide Lex, AfterComments, TokenText, Spells, Blank, Gap, Plain, AnyToken;
    EndCases(doc, p, f);
    after, w := GapTokenSound(doc, p, f);
    var t := AfterComments(doc, p, f);
    MarkText(t.kind, w);
    if t.kind != ObjectEnd && !Blank(after) { PassesText(doc, p, f); }
  }

  lemma EndCases(doc: string, p: nat, f: Features)
    requires p <= |doc| && MemberEnd(doc, p, f).Some?
    ensures MemberEnd(doc, p, f).value == AfterComments(doc, p, f)
    ensures Lex(doc, p, f).kind != CommentToken ==> AfterComments(doc, p, f).kind in {ObjectEnd, ArraySeparator}
  {
    hide Lex;
  }

  lemma PassesText(doc: string, p: nat, f: Features)
    requires p <= |doc| && Plain(f)
    requires var t := AfterComments(doc, p, f); t.start < |doc| && t.end < |doc| && t.kind !in {ObjectEnd, CommentToken}
    ensures var t := AfterComments(doc, p, f); AnyToken(doc[t.start..t.end], f)
  {
    hide AfterComments, ScanAfter, SpaceEnd, Gap, AnyToken;
    var t := AfterComments(doc, p, f);
    GapSound(doc, p, f);
    SpaceIsBlank(doc, t.start);
    AnyTokenSound(doc, t.start, f);
  }

  lemma CommaPasses(after: string, f: Features)
    ensures Passes(after, ",", f)
  {
    hide Blank;
  }

  /** The first member: its key, the colon, the value. */
  lemma EntrySound(doc: string, p: nat, room: int, env: Env, name: string) returns (x: Entry)
    requires p <= |doc| && Plain(env.f) && |name| < KEY_LIMIT && AfterComments(doc, p, env.f).start < |doc|
    requires var t := AfterComments(doc, p, env.f);
             && NameOf(doc, t, env) == Some(name)
             && var c := Lex(doc, t.end, env.f); c.kind == MemberSeparator && ParseValue(doc, c.end, room - 1, env).Good?
    ensures var r := ParseValue(doc, Lex(doc, AfterComments(doc, p, env.f).end, env.f).end, room - 1, env);
            && EntryStands(doc, p, x, room, env) && KeyName(x.key) == name && ValueEnd(p, x) == r.end && Meaning(x.node, env) == r.value
            && x.after == ""
    decreases |doc| - p, 1
  {
    hide ParseValue, Lex, AfterComments, TokenText, Blank, Gap, ValueGap, Passes, Plain, Spells, Meaning, Fits, Text, NameOf, StringOf,
         KeyName, Proper;
    var before, key := GapTokenSound(doc, p, env.f);
    var t := AfterComments(doc, p, env.f);
    KeySound(doc, t, key, env);
    var beforeColon, w := BlankTokenSound(doc, t.end, env.f);
    var c := Lex(doc, t.end, env.f);
    MarkText(c.kind, w);
    var afterColon, n := ValueSound(doc, c.end, room - 1, env);
    CommaPasses("", env.f);
    assert Gap("") by { NoBlanks(); BlankGap(""); }
    assert Proper(n, env) by { FitsProper(n, room - 1, env); }
    x := Entry(before, key, beforeColon, afterColon, n, "", ",");
  }

  lemma FitsProper(n: Node, room: int, env: Env)
    requires Fits(n, room, env)
    ensures Proper(n, env)
  {}

  lemma AfterStands(doc: string, p: nat, x: Entry, room: int, env: Env, after: string, comma: string)
    requires EntryStands(doc, p, x, room, env) && Gap(after) && Passes(after, comma, env.f)
    ensures var y := x.(after := after, comma := comma); EntryStands(doc, p, y, room, env) && ValueEnd(p, y) == ValueEnd(p, x)
  {
    hide Spells, Proper, KeyOk, Fits, Text, Blank, Gap, ValueGap, Passes;
  }

  lemma {:induction false} MembersSound(doc: string, p: nat, room: int, ms: seq<Member>, last: string, env: Env)
    returns (xs: seq<Entry>, trail: bool, rest: string)
    requires p <= |doc| && Plain(env.f) && room > 0 && ParseMembers(doc, p, room, ms, last, env).Good?
    ensures EntriesExplain(doc, p, ms, last, xs, trail, rest, room, env, ParseMembers(doc, p, room, ms, last, env))
    decreases |doc| - p, 2
  {
    hide ParseValue, ParseMembers, Lex, AfterComments, TokenText, Blank, Gap, ValueGap, Passes, Plain, Spells, Meaning, Fits, Text, NameOf,
         MemberEnd, Put, IsMember, EntriesExplain, EntryStands, ValueEnd, KeyName;
    MembersCases(doc, p, room, ms, last, env);
    var t := AfterComments(doc, p, env.f);
    if MembersClosing(doc, p, last, env.f) {
      var gap, w := GapTokenSound(doc, p, env.f);
      MarkText(t.kind, w);
      EntriesEnd(doc, p, ms, last, gap, room, env);
      return [], ms != [], gap;
    }
    var name := NameOf(doc, t, env).value;
    var r := ParseValue(doc, Lex(doc, t.end, env.f).end, room - 1, env);
    var y := EntrySound(doc, p, room, env, name);
    var e, ms' := MemberEnd(doc, r.end, env.f).value, Put(ms, name, r.value);
    if e.kind == ObjectEnd {
      var after, w := EndSound(doc, r.end, env.f);
      CommaPasses(after, env.f);
      AfterStands(doc, p, y, room, env, after, ",");
      EntriesLast(doc, p, ms, last, y.(after := after, comma := ","), room, env);
      return [y.(after := after, comma := ",")], false, "";
    }
    MembersAtEnd(doc, e.end, room, ms', name, env);
    var after, w := EndSound(doc, r.end, env.f);
    AfterStands(doc, p, y, room, env, after, w);
    var x := y.(after := after, comma := w);
    xs, trail, rest := MembersSound(doc, e.end, room, ms', name, env);
    EntriesGrow(doc, p, ms, last, x, xs, trail, rest, room, env, ParseMembers(doc, e.end, room, ms', name, env));
    xs := [x] + xs;
  }

  // ---------------------------------------------------------------- documents

  /** Nothing but white space, and comments if they are allowed, from `p` to the end, or to a NUL character. */
  predicate Over(doc: string, p: nat, f: Features) { p <= |doc| && ValueToken(doc, p, f).kind == EndOfStream }

  /** A document that is the text of a tree, with gaps around it, after a byte order mark that is skipped;
      and the tree is within what the features allow. */
  predicate IsText(doc: string, g: string, n: Node, env: Env) {
    var start := Beginning(doc, env.f);
    && ValueGap(g, env.f) && Fits(n, env.f.stackLimit, env) && (env.f.strictRoot ==> !n.Atom?)
    && Spells(doc, start, g + Text(n)) && Over(doc, start + |g| + |Text(n)|, env.f)
  }

  lemma OverDelimits(doc: string, p: nat, f: Features)
    requires Over(doc, p, f)
    ensures Delimited(doc, p)
  {
    hide CommentScan, QuoteEnd, NumberEnd;
    if p < |doc| && !IsBlank(doc[p]) { SpaceStays(doc, p); }
  }

  lemma AtomIsScalar(n: Node, env: Env)
    requires Proper(n, env)
    ensures n.Atom? <==> !Meaning(n, env).Arr? && !Meaning(n, env).Obj?
  {
    hide AtomOf;
  }

  /** With all features, the text of a tree is accepted, and read as what the tree means; and the rules are
      kept in reading it exactly if the tree is regular. */
  lemma TextAccepted(doc: string, g: string, n: Node, env: Env)
    requires IsText(doc, g, n, env)
    ensures ParseDocument(doc, env) == Good(Meaning(n, env), Beginning(doc, env.f) + |g| + |Text(n)|)
    ensures DocumentKept(doc, env) <==> Regular(n, env.f)
  {
    hide Text, Meaning, Proper, Depth, KeysDiffer, ParseValue, ValueKept, ValueToken, Delimited, ValueGap, Regular;
    var start := Beginning(doc, env.f);
    var e := start + |g| + |Text(n)|;
    OverDelimits(doc, e, env.f);
    ParsesValue(doc, start, g, n, env.f.stackLimit, env);
    AtomIsScalar(n, env);
  }

  /** Without extensions, a document is accepted if and only if it is the text of a tree, and then it is read
      as what the tree means. It is the text of a regular tree if and only if moreover the rules are kept in
      reading it: a comment after a member is followed by a comma or a brace, and so on. */
  lemma AcceptedExactly(doc: string, env: Env)
    requires Plain(env.f) && env.f.failIfExtra
    ensures ParseDocument(doc, env).Good? <==> exists g, n :: IsText(doc, g, n, env)
    ensures forall g, n | IsText(doc, g, n, env) ::
              && ParseDocument(doc, env) == Good(Meaning(n, env), Beginning(doc, env.f) + |g| + |Text(n)|)
              && (DocumentKept(doc, env) <==> Regular(n, env.f))
    ensures ParseDocument(doc, env).Good? && DocumentKept(doc, env) <==> exists g, n :: IsText(doc, g, n, env) && Regular(n, env.f)
  {
    hide Text, Meaning, Proper, Depth, KeysDiffer, ParseValue, ValueKept, ValueToken, ValueGap, Plain, Beginning, Regular, DocumentKept;
    forall g, n | IsText(doc, g, n, env)
      ensures ParseDocument(doc, env) == Good(Meaning(n, env), Beginning(doc, env.f) + |g| + |Text(n)|)
      ensures DocumentKept(doc, env) <==> Regular(n, env.f)
    {
      TextAccepted(doc, g, n, env);
    }
    if ParseDocument(doc, env).Good? {
      var start := Beginning(doc, env.f);
      var g, n := ValueSound(doc, start, env.f.stackLimit, env);
      AtomIsScalar(n, env);
      assert IsText(doc, g, n, env);
    }
  }

  // ---------------------------------------------------------------- beyond the grammar

  /** The tokens of a document that is not JSON. */
  lemma ExampleTokens(doc: string, f: Features)
    requires doc == "{\"\":1/**/7}"
    ensures |doc| == 11 && Lex(doc, 0, f) == Token(ObjectBegin, 0, 1)
    ensures Lex(doc, 1, f) == Token(StringToken, 1, 3) && Inner(doc, Token(StringToken, 1, 3)) == ""
    ensures Lex(doc, 3, f) == Token(MemberSeparator, 3, 4)
    ensures Lex(doc, 4, f) == Token(NumberToken, 4, 5)
    ensures Lex(doc, 5, f) == Token(CommentToken, 5, 9)
    ensures Lex(doc, 9, f) == Token(NumberToken, 9, 10)
    ensures Lex(doc, 10, f) == Token(ObjectEnd, 10, 11)
  {
    hide Lex;
    FirstExampleTokens(doc, f);
    LastExampleTokens(doc, f);
  }

  lemma FirstExampleTokens(doc: string, f: Features)
    requires doc == "{\"\":1/**/7}"
    ensures |doc| == 11 && Lex(doc, 0, f) == Token(ObjectBegin, 0, 1) && Lex(doc, 3, f) == Token(MemberSeparator, 3, 4)
    ensures Lex(doc, 1, f) == Token(StringToken, 1, 3) && Inner(doc, Token(StringToken, 1, 3)) == ""
  {
    assert QuoteEnd(doc, 2, '"') == Some(3);
  }

  lemma LastExampleTokens(doc: string, f: Features)
    requires doc == "{\"\":1/**/7}"
    ensures |doc| == 11 && Lex(doc, 4, f) == Token(NumberToken, 4, 5) && Lex(doc, 5, f) == Token(CommentToken, 5, 9)
    ensures Lex(doc, 9, f) == Token(NumberToken, 9, 10) && Lex(doc, 10, f) == Token(ObjectEnd, 10, 11)
  {
    assert NumberEnd(doc, 5) == 5;
    assert StarEnd(doc, 7) == 8;
    assert NumberEnd(doc, 10) == 10;
  }

  lemma ExampleValue(doc: string, env: Env)
    requires doc == "{\"\":1/**/7}" && env.f.stackLimit >= 2
    ensures ParseValue(doc, 4, env.f.stackLimit - 1, env) == Good(Int(1), 5)
  {
    hide Lex;
    ExampleTokens(doc, env.f);
    var t := doc[4..5];
    assert t == "1" && Unsigned(t) == t;
    Decimals.DecimalSnoc("", '1');
    assert "" + ['1'] == t;
  }

  lemma NotAComment(doc: string, p: nat, f: Features)
    requires p <= |doc| && Lex(doc, p, f).kind != CommentToken
    ensures AfterComments(doc, p, f) == ValueToken(doc, p, f) == Lex(doc, p, f)
  {
    hide Lex;
  }

  /** One round of the loop over an object, with a comment after the member. */
  lemma ExampleRound(doc: string, env: Env)
    requires doc == "{\"\":1/**/7}" && env.f.stackLimit >= 2
    ensures ParseMembers(doc, 1, env.f.stackLimit, [], "", env) == Good(Obj([Member("", Int(1))]), 11)
    ensures !MembersKept(doc, 1, env.f.stackLimit, [], "", env)
  {
    hide Lex, ParseValue, ParseMembers, MembersKept, AfterComments, ValueToken, SpaceEnd, Decoded, Put, NumberOf;
    ExampleTokens(doc, env.f);
    ExampleValue(doc, env);
    assert NameOf(doc, Token(StringToken, 1, 3), env) == Some("") by { DecodedNothing(); }
    NotAComment(doc, 1, env.f);
    NotAComment(doc, 9, env.f);
    NotAComment(doc, 10, env.f);
    assert MemberEnd(doc, 5, env.f) == Some(Token(NumberToken, 9, 10));
    MembersOver(doc, 10, env.f.stackLimit, [Member("", Int(1))], "", env);
    Unrolled(doc, env);
  }

  lemma Unrolled(doc: string, env: Env)
    requires 11 == |doc| && AfterComments(doc, 1, env.f) == Token(StringToken, 1, 3) && NameOf(doc, Token(StringToken, 1, 3), env) == Some("")
    requires Lex(doc, 3, env.f) == Token(MemberSeparator, 3, 4)
    requires ParseValue(doc, 4, env.f.stackLimit - 1, env) == Good(Int(1), 5) && MemberEnd(doc, 5, env.f) == Some(Token(NumberToken, 9, 10))
    ensures ParseMembers(doc, 1, env.f.stackLimit, [], "", env)
         == ParseMembers(doc, 10, env.f.stackLimit, [Member("", Int(1))], "", env)
    ensures !MembersKept(doc, 1, env.f.stackLimit, [], "", env)
  {
    hide Lex, ValueKept, ParseValue, AfterComments, NameOf, MemberEnd, Put;
    assert Put([], "", Int(1)) == [Member("", Int(1))] by { PutFirst(); }
  }

  lemma PutFirst()
    ensures Put([], "", Int(1)) == [Member("", Int(1))]
  {}

  /** Whatever the features: after a comment in the place of a comma, any token passes for one. */
  lemma CommentForComma(env: Env)
    requires env.f.stackLimit >= 2
    ensures ParseDocument("{\"\":1/**/7}", env) == Good(Obj([Member("", Int(1))]), 11)
    ensures !DocumentKept("{\"\":1/**/7}", env)
  {
    hide Lex, ParseMembers, MembersKept, AfterComments, ValueToken, SpaceEnd;
    var doc := "{\"\":1/**/7}";
    assert doc[0] == '{';
    ExampleTokens(doc, env.f);
    ExampleRound(doc, env);
    NotAComment(doc, 0, env.f);
    NoMark(doc, env.f);
    assert ValueToken(doc, 11, env.f).kind == EndOfStream by { AtEnd(doc, env.f); }
  }

  lemma NoMark(doc: string, f: Features)
    requires doc != "" && doc[0] as int < 128
    ensures Beginning(doc, f) == 0
  {
    assert BOM[0] as int == 0xEF;
    assert |doc| >= 3 ==> doc[0..3][0] == doc[0];
  }

  lemma AtEnd(doc: string, f: Features)
    ensures ValueToken(doc, |doc|, f).kind == EndOfStream
  {}
}
