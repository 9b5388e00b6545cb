/** JSON text as a tree that carries its tokens and its white space, and the value it means. */
module JsonLayout {
  import opened Numbers
  import opened HttpTypes
  import opened Options
  import opened Decimals
  import opened JsonValues
  import opened JsonUnicode
  import opened JsonNumbers
  import opened JsonQuoting
  import opened JsonTokens
  import opened JsonParse

  /** A value with the white space and the comments inside it. `trail` says that there is one more comma
      after the last item or member, and `rest` is what comes before the closing bracket then, or if there
      are none. */
  datatype Node =
    | Atom(text: string)
    | List(items: seq<Item>, trail: bool, rest: string)
    | Dict(entries: seq<Entry>, trail: bool, rest: string)

  datatype Item = Item(before: string, node: Node, after: string)

  /** `key` is the text of the string token; `comma` is the comma after the member, or what passes for it. */
  datatype Entry = Entry(
    before: string, key: string, beforeColon: string, afterColon: string, node: Node, after: string, comma: string)

  // ---------------------------------------------------------------- the text

  function Text(n: Node): string {
    match n
    case Atom(t) => t
    case List(items, trail, rest) => "[" + InItems(items, trail, rest)
    case Dict(entries, trail, rest) => "{" + InEntries(entries, trail, rest)
  }

  function ItemText(i: Item): string { i.before + Text(i.node) + i.after }

  /** An array after its opening bracket, or after a comma. */
  function InItems(items: seq<Item>, trail: bool, rest: string): string
    decreases items
  {
    if items == [] then rest + "]"
    else ItemText(items[0]) + (if |items| > 1 || trail then "," + InItems(items[1..], trail, rest) else rest + "]")
  }

  function EntryText(x: Entry): string { x.before + x.key + x.beforeColon + ":" + x.afterColon + Text(x.node) + x.after }

  /** An object after its opening brace, or after a comma. */
  function InEntries(xs: seq<Entry>, trail: bool, rest: string): string
    decreases xs
  {
    if xs == [] then rest + "}"
    else EntryText(xs[0]) + (if |xs| > 1 || trail then xs[0].comma + InEntries(xs[1..], trail, rest) else rest + "}")
  }

  // ---------------------------------------------------------------- the value

  predicate IsString(t: string) { |t| >= 2 && t[0] == '"' && t[|t| - 1] == '"' && Escaped(t[1..|t| - 1]) }

  predicate AllDigits(s: string) { forall c <- s :: IsNum(c) }

  predicate IsFraction(s: string) { s == "" || (s[0] == '.' && AllDigits(s[1..])) }

  predicate IsExponent(s: string) {
    s == ""
    || (s[0] in {'e', 'E'}
        && (AllDigits(s[1..]) || (|s| > 1 && s[1] in {'+', '-'} && AllDigits(s[2..]))))
  }

  /** The whole part ends at `i`, and the fraction at `j`. */
  predicate NumberParts(t: string, i: nat, j: nat) {
    1 <= i <= j <= |t| && AllDigits(t[1..i]) && IsFraction(t[i..j]) && IsExponent(t[j..])
  }

  /** A sign or a digit, digits, a fraction, an exponent: any of them may be short of digits. */
  predicate IsNumber(t: string) {
    t != "" && (IsNum(t[0]) || t[0] in {'-', '+'}) && exists i, j :: 1 <= i <= j <= |t| && NumberParts(t, i, j)
  }

  function StringOf(t: string): Option<string> {
    if IsString(t) then Decoded(t[1..|t| - 1]) else None
  }

  /** The value of a scalar's text. */
  function AtomOf(t: string, env: Env): (r: Option<Value>)
    ensures r.Some? ==> !r.value.Arr? && !r.value.Obj?
  {
    if t == "null" then Some(Null)
    else if t == "true" then Some(Bool(true))
    else if t == "false" then Some(Bool(false))
    else if IsString(t) then (var s := StringOf(t); if s.None? then None else Some(Str(s.value)))
    else if IsNumber(t) then NumberOf(t, env)
    else None
  }

  function AtomValue(t: string, env: Env): Value { var v := AtomOf(t, env); if v.Some? then v.value else Null }

  function KeyName(t: string): string { var s := StringOf(t); if s.Some? then s.value else "" }

  function Meaning(n: Node, env: Env): Value {
    match n
    case Atom(t) => AtomValue(t, env)
    case List(items, _, _) => Arr(ItemsMeaning(items, env))
    case Dict(entries, _, _) => Obj(EntriesMeaning([], entries, env))
  }

  function ItemsMeaning(items: seq<Item>, env: Env): seq<Value> {
    if items == [] then [] else [Meaning(items[0].node, env)] + ItemsMeaning(items[1..], env)
  }

  /** Members are entered in the order of the text: the last one with a key counts. */
  function EntriesMeaning(ms: seq<Member>, xs: seq<Entry>, env: Env): seq<Member>
    decreases xs
  {
    if xs == [] then ms else EntriesMeaning(Put(ms, KeyName(xs[0].key), Meaning(xs[0].node, env)), xs[1..], env)
  }

  /** How deep arrays and objects are nested, a scalar counting one. */
  function Depth(n: Node): (d: nat)
    ensures d > 0
  {
    match n
    case Atom(_) => 1
    case List(items, _, _) => 1 + ItemsDepth(items)
    case Dict(entries, _, _) => 1 + EntriesDepth(entries)
  }

  function ItemsDepth(items: seq<Item>): nat { if items == [] then 0 else Max(Depth(items[0].node), ItemsDepth(items[1..])) }

  function EntriesDepth(xs: seq<Entry>): nat { if xs == [] then 0 else Max(Depth(xs[0].node), EntriesDepth(xs[1..])) }

  // ---------------------------------------------------------------- white space and comments

  /** A block comment ends at the first star and slash, a line comment at the end of its line. */
  predicate Comment(c: string) {
    && |c| >= 3 && c[0] == '/'
    && if c[1] == '*' then
         |c| >= 4 && c[|c| - 2] == '*' && c[|c| - 1] == '/' && forall i | 2 <= i < |c| - 2 :: !(c[i] == '*' && c[i + 1] == '/')
       else
         && c[1] == '/' && c[|c| - 1] in {'\n', '\r'}
         && forall i | 2 <= i < |c| - 1 :: c[i] != '\n' && (c[i] == '\r' ==> i == |c| - 2 && c[|c| - 1] == '\n')
  }

  predicate Gap(g: string)
    decreases |g|
  {
    g == "" || (IsBlank(g[0]) && Gap(g[1..])) || exists k :: 0 < k <= |g| && Comment(g[..k]) && Gap(g[k..])
  }

  /** Before a value comments have to be allowed. */
  predicate ValueGap(g: string, f: Features) { if f.allowComments then Gap(g) else Blank(g) }

  // ---------------------------------------------------------------- what is well formed

  predicate KeyOk(t: string) { StringOf(t).Some? && |KeyName(t)| < KEY_LIMIT }

  /** The characters that are no tokens, and with which no token begins that could be read to its end here. */
  predicate Stray(c: char, f: Features) {
    && !IsBlank(c) && !IsNum(c) && c !in {'{', '}', '[', ']', ',', ':', '"', '/', '-', '+', '\0'}
    && (c == '\'' ==> !f.allowSingleQuotes)
  }

  /** What passes for a comma after a comment: anything but a closing brace, malformed tokens included. */
  predicate AnyToken(w: string, f: Features) {
    || w in {",", "{", "[", "]", ":", "\0", "true", "false", "null", "-I", "+I"} || IsString(w) || IsNumber(w)
    || (|w| == 1 && Stray(w[0], f)) || (|w| == 2 && w[0] == '/' && w[1] !in {'/', '*'})
  }

  predicate Passes(after: string, comma: string, f: Features) { if Blank(after) then comma == "," else AnyToken(comma, f) }

  /** How an array may end; `first` before the first item. One more comma takes the feature for it. */
  predicate ItemsClose(first: bool, items: seq<Item>, trail: bool, rest: string, f: Features)
    decreases items
  {
    if items == [] then
      && Blank(rest) && (trail ==> !first)
      && (first || (trail && f.allowTrailingCommas && !f.allowDroppedNullPlaceholders))
    else if |items| > 1 || trail then ItemsClose(false, items[1..], trail, rest, f)
    else rest == ""
  }

  /** How an object may end, after a member of the name `last`. After the empty name one more comma is
      accepted in any case. */
  predicate EntriesClose(first: bool, last: string, xs: seq<Entry>, trail: bool, rest: string, f: Features)
    decreases xs
  {
    if xs == [] then
      && Gap(rest) && (trail ==> !first)
      && (first || (trail && (f.allowTrailingCommas || last == "")))
    else if |xs| > 1 || trail then EntriesClose(false, KeyName(xs[0].key), xs[1..], trail, rest, f)
    else rest == "" && xs[0].comma == ","
  }

  predicate Proper(n: Node, env: Env) {
    match n
    case Atom(t) => AtomOf(t, env).Some?
    case List(items, trail, rest) => ItemsClose(true, items, trail, rest, env.f) && ItemsProper(items, env)
    case Dict(entries, trail, rest) => EntriesClose(true, "", entries, trail, rest, env.f) && EntriesProper(entries, env)
  }

  predicate ItemsProper(items: seq<Item>, env: Env) {
    items == []
    || (ValueGap(items[0].before, env.f) && Gap(items[0].after) && Proper(items[0].node, env) && ItemsProper(items[1..], env))
  }

  predicate EntryProper(x: Entry, env: Env) {
    && Gap(x.before) && Blank(x.beforeColon) && ValueGap(x.afterColon, env.f) && Gap(x.after)
    && KeyOk(x.key) && Proper(x.node, env) && Passes(x.after, x.comma, env.f)
  }

  predicate EntriesProper(xs: seq<Entry>, env: Env) {
    xs == [] || (EntryProper(xs[0], env) && EntriesProper(xs[1..], env))
  }

  /** No key occurs twice, in this object or inside. */
  predicate KeysDiffer(n: Node, env: Env) {
    match n
    case Atom(_) => true
    case List(items, _, _) => ItemsDiffer(items, env)
    case Dict(entries, _, _) => EntriesDiffer([], entries, env)
  }

  predicate ItemsDiffer(items: seq<Item>, env: Env) {
    items == [] || (KeysDiffer(items[0].node, env) && ItemsDiffer(items[1..], env))
  }

  predicate EntriesDiffer(ms: seq<Member>, xs: seq<Entry>, env: Env)
    decreases xs
  {
    xs == []
    || (!IsMember(ms, KeyName(xs[0].key)) && KeysDiffer(xs[0].node, env)
        && EntriesDiffer(Put(ms, KeyName(xs[0].key), Meaning(xs[0].node, env)), xs[1..], env))
  }

  // ---------------------------------------------------------------- what is meant to be accepted

  /** Comments where they are allowed. */
  predicate GapRegular(g: string, f: Features) { f.allowComments || Blank(g) }

  /** A tree without the liberties that the reader takes: commas are commas, one more of them takes the
      feature for it, and there are comments only if they are allowed. */
  predicate Regular(n: Node, f: Features) {
    match n
    case Atom(_) => true
    case List(items, _, _) => ItemsRegular(items, f)
    case Dict(entries, trail, rest) => EntriesRegular(entries, f) && EndRegular(trail, rest, f)
  }

  predicate EndRegular(trail: bool, rest: string, f: Features) { GapRegular(rest, f) && (trail ==> f.allowTrailingCommas) }

  predicate ItemsRegular(items: seq<Item>, f: Features) {
    items == [] || (GapRegular(items[0].after, f) && Regular(items[0].node, f) && ItemsRegular(items[1..], f))
  }

  predicate EntriesRegular(xs: seq<Entry>, f: Features) {
    xs == []
    || (GapRegular(xs[0].before, f) && GapRegular(xs[0].after, f) && xs[0].comma == "," && Regular(xs[0].node, f)
        && EntriesRegular(xs[1..], f))
  }
}
