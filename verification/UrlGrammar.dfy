/** What `http_parser_parse_url` accepts, as a grammar: a URL is a row of pieces, each free of what
    would end it. The two character functions of the parser read exactly such rows. */
module UrlGrammar {
  import opened HttpTypes
  import opened HttpSwitch
  import opened Decimals
  import opened Options

  predicate Every(s: string, p: char -> bool) { forall c <- s :: p(c) }

  lemma EverySnoc(s: string, c: char, p: char -> bool)
    ensures Every(s + [c], p) <==> Every(s, p) && p(c)
  {
    if Every(s + [c], p) {
      assert c in s + [c];
      assert forall x <- s :: x in s + [c];
    }
  }

  /** A text ends in its last byte. */
  lemma Snoc(s: string)
    requires s != ""
    ensures s == Init(s) + [Last(s)]
  {}

  function Init(s: string): string
    requires s != ""
  {
    s[..|s| - 1]
  }
  function Last(s: string): char
    requires s != ""
  {
    s[|s| - 1]
  }

  // ---------------------------------------------------------------- the whole URL

  /** A URL in its pieces, delimiters included. */
  datatype Pieces = Pieces(
    schema: string, slashes: string, authority: string, path: string, mark: string, query: string, hashes: string, fragment: string)

  const NOTHING := Pieces("", "", "", "", "", "", "", "")

  function Text(x: Pieces): string {
    x.schema + x.slashes + x.authority + x.path + x.mark + x.query + x.hashes + x.fragment
  }

  predicate IsServerChar(c: char) { IsUserinfoChar(c) || c in {'[', ']', '@'} }
  predicate IsQueryChar(c: char) { IsUrlChar(c) || c == '?' }
  predicate IsFragmentChar(c: char) { IsUrlChar(c) || c == '?' || c == '#' }
  predicate IsHash(c: char) { c == '#' }

  /** No two at-signs in a row. */
  predicate SingleAts(s: string) {
    |s| < 2 || (SingleAts(Init(s)) && !(Last(s) == '@' && Last(Init(s)) == '@'))
  }

  lemma AtsSnoc(s: string, c: char)
    ensures SingleAts(s + [c]) <==> SingleAts(s) && (s == "" || Last(s) != '@' || c != '@')
    ensures Last(s + [c]) == c
  {
    assert Init(s + [c]) == s;
  }

  /** After a method other than CONNECT a URL has a schema or begins with its path; after CONNECT it
      begins with the authority. */
  predicate AuthorityMayCome(x: Pieces, connect: bool) { connect || x.slashes == "://" }

  /** The beginning of a URL, or all of it. */
  predicate Fits(x: Pieces, connect: bool) {
    && Every(x.schema, IsAlpha) && (x.schema != "" ==> !connect)
    && x.slashes in {"", ":", ":/", "://"} && (x.slashes != "" ==> x.schema != "")
    && Every(x.authority, IsServerChar) && SingleAts(x.authority)
    && (x.authority != "" ==> AuthorityMayCome(x, connect))
    && Every(x.path, IsUrlChar)
    && (x.path != "" ==> (x.path[0] == '/' && AuthorityMayCome(x, connect))
                         || (x.path[0] in {'/', '*'} && x.schema == "" && !connect))
    && x.mark in {"", "?"} && (x.mark != "" ==> x.path != "" || AuthorityMayCome(x, connect))
    && Every(x.query, IsQueryChar) && (x.query != "" ==> x.mark != "")
    && Every(x.hashes, IsHash) && (x.hashes != "" ==> x.path != "" || x.mark != "")
    && Every(x.fragment, IsFragmentChar) && (x.fragment != "" ==> x.hashes != "" && x.fragment[0] != '#')
  }

  /** The state after the pieces. */
  function StateOf(x: Pieces, connect: bool): State {
    if x.fragment != "" then ReqFragment
    else if x.hashes != "" then ReqFragmentStart
    else if x.query != "" then ReqQueryString
    else if x.mark != "" then ReqQueryStringStart
    else if x.path != "" then ReqPath
    else if x.authority != "" then (if Last(x.authority) == '@' then ReqServerWithAt else ReqServer)
    else if x.slashes == "://" then ReqServerStart
    else if x.slashes == ":/" then ReqSchemaSlashSlash
    else if x.slashes == ":" then ReqSchemaSlash
    else if x.schema != "" then ReqSchema
    else if connect then ReqServerStart else ReqSpacesBeforeUrl
  }

  /** The piece in which the last byte is. */
  function Slot(x: Pieces): nat {
    if x.fragment != "" then 7 else if x.hashes != "" then 6 else if x.query != "" then 5 else if x.mark != "" then 4
    else if x.path != "" then 3 else if x.authority != "" then 2 else if x.slashes != "" then 1 else 0
  }

  /** The piece that a state reads. */
  function SlotOf(s: State): nat {
    match s
    case ReqSchemaSlash | ReqSchemaSlashSlash | ReqServerStart => 1
    case ReqServer | ReqServerWithAt => 2
    case ReqPath => 3
    case ReqQueryStringStart => 4
    case ReqQueryString => 5
    case ReqFragmentStart => 6
    case ReqFragment => 7
    case _ => 0
  }

  /** A byte more for a piece. */
  function Put(x: Pieces, k: nat, c: char): Pieces {
    match k
    case 0 => x.(schema := x.schema + [c])
    case 1 => x.(slashes := x.slashes + [c])
    case 2 => x.(authority := x.authority + [c])
    case 3 => x.(path := x.path + [c])
    case 4 => x.(mark := x.mark + [c])
    case 5 => x.(query := x.query + [c])
    case 6 => x.(hashes := x.hashes + [c])
    case _ => x.(fragment := x.fragment + [c])
  }

  lemma PutText(x: Pieces, k: nat, c: char)
    requires Slot(x) <= k
    ensures Text(Put(x, k, c)) == Text(x) + [c]
  {
    match k
    case 0 =>
    case 1 =>
    case 2 =>
    case 3 =>
    case 4 =>
    case 5 =>
    case 6 =>
    case _ =>
  }

  /** A byte that the parser goes on with makes a longer beginning of a URL. */
  lemma PutFits(x: Pieces, connect: bool, c: char)
    requires Fits(x, connect)
    ensures var t := ParseUrlChar(StateOf(x, connect), c);
            !t.Dead? ==> Slot(x) <= SlotOf(t) && Fits(Put(x, SlotOf(t), c), connect) && StateOf(Put(x, SlotOf(t), c), connect) == t
  {
    hide IsUrlChar, IsUserinfoChar, IsAlpha, IsServerChar, Every;
    var t := ParseUrlChar(StateOf(x, connect), c);
    if t.Dead? {}
    else if SlotOf(t) == 0 { PutSchema(x, connect, c); }
    else if SlotOf(t) == 1 { PutSlashes(x, connect, c); }
    else if SlotOf(t) == 2 { PutAuthority(x, connect, c); }
    else if SlotOf(t) == 3 { PutPath(x, connect, c); }
    else { PutRest(x, connect, c); }
  }

  predicate Takes(x: Pieces, connect: bool, c: char, k: nat) {
    var t := ParseUrlChar(StateOf(x, connect), c);
    !t.Dead? && SlotOf(t) == k && Fits(x, connect)
  }

  predicate Continues(x: Pieces, connect: bool, c: char) {
    var t := ParseUrlChar(StateOf(x, connect), c);
    Slot(x) <= SlotOf(t) && Fits(Put(x, SlotOf(t), c), connect) && StateOf(Put(x, SlotOf(t), c), connect) == t
  }

  lemma PutSchema(x: Pieces, connect: bool, c: char)
    requires Takes(x, connect, c, 0)
    ensures Continues(x, connect, c)
  {
    hide IsUrlChar, IsUserinfoChar, IsAlpha, IsServerChar, Every;
    EverySnoc(x.schema, c, IsAlpha);
  }

  lemma PutSlashes(x: Pieces, connect: bool, c: char)
    requires Takes(x, connect, c, 1)
    ensures Continues(x, connect, c)
  {
    hide IsUrlChar, IsUserinfoChar, IsAlpha, IsServerChar, IsQueryChar, IsFragmentChar, IsHash, SingleAts, Every;
    assert "" + ":" == ":" && ":" + "/" == ":/" && ":/" + "/" == "://";
  }

  lemma PutAuthority(x: Pieces, connect: bool, c: char)
    requires Takes(x, connect, c, 2)
    ensures Continues(x, connect, c)
  {
    hide IsUrlChar, IsUserinfoChar, IsAlpha, Every;
    EverySnoc(x.authority, c, IsServerChar);
    AtsSnoc(x.authority, c);
    hide SingleAts;
  }

  lemma PutPath(x: Pieces, connect: bool, c: char)
    requires Takes(x, connect, c, 3)
    ensures Continues(x, connect, c)
  {
    hide IsUserinfoChar, IsAlpha, IsServerChar, Every;
    EverySnoc(x.path, c, IsUrlChar);
  }

  lemma PutRest(x: Pieces, connect: bool, c: char)
    requires Takes(x, connect, c, 4) || Takes(x, connect, c, 5) || Takes(x, connect, c, 6) || Takes(x, connect, c, 7)
    ensures Continues(x, connect, c)
  {
    hide IsUserinfoChar, IsAlpha, IsServerChar, Every;
    EverySnoc(x.query, c, IsQueryChar);
    EverySnoc(x.hashes, c, IsHash);
    EverySnoc(x.fragment, c, IsFragmentChar);
    match SlotOf(ParseUrlChar(StateOf(x, connect), c))
    case 4 => assert x.mark + [c] == "?";
    case 5 =>
    case 6 =>
    case _ =>
  }

  // ---------------------------------------------------------------- reading

  /** The pieces of a text, if the parser's states go along with it. */
  function Read(text: string, connect: bool): Option<Pieces> {
    if text == "" then Some(NOTHING)
    else match Read(Init(text), connect)
      case None => None
      case Some(x) =>
        var t := ParseUrlChar(StateOf(x, connect), Last(text));
        if t.Dead? then None else Some(Put(x, SlotOf(t), Last(text)))
  }

  lemma {:induction false} ReadFits(text: string, connect: bool)
    ensures Read(text, connect).Some? ==> Fits(Read(text, connect).value, connect) && Text(Read(text, connect).value) == text
  {
    hide Fits, Put, StateOf, ParseUrlChar, Slot, SlotOf;
    if text == "" {
      NothingFits(connect);
    } else if Read(text, connect).Some? {
      ReadFits(Init(text), connect);
      var x := Read(Init(text), connect).value;
      PutFits(x, connect, Last(text));
      PutText(x, SlotOf(ParseUrlChar(StateOf(x, connect), Last(text))), Last(text));
    }
  }

  lemma NothingFits(connect: bool)
    ensures Fits(NOTHING, connect) && Text(NOTHING) == ""
  {}

  /** Pieces are shorter pieces and a last byte. */
  lemma LastPut(x: Pieces) returns (y: Pieces, k: nat, c: char)
    requires Text(x) != ""
    ensures k < 8 && Slot(y) <= k && Put(y, k, c) == x
  {
    hide Text;
    OnlySchema(x);
    k := Slot(x);
    match k {
      case 0 => Snoc(x.schema); y, c := x.(schema := Init(x.schema)), Last(x.schema);
      case 1 => Snoc(x.slashes); y, c := x.(slashes := Init(x.slashes)), Last(x.slashes);
      case 2 => Snoc(x.authority); y, c := x.(authority := Init(x.authority)), Last(x.authority);
      case 3 => Snoc(x.path); y, c := x.(path := Init(x.path)), Last(x.path);
      case 4 => Snoc(x.mark); y, c := x.(mark := Init(x.mark)), Last(x.mark);
      case 5 => Snoc(x.query); y, c := x.(query := Init(x.query)), Last(x.query);
      case 6 => Snoc(x.hashes); y, c := x.(hashes := Init(x.hashes)), Last(x.hashes);
      case _ => Snoc(x.fragment); y, c := x.(fragment := Init(x.fragment)), Last(x.fragment);
    }
  }

  lemma OnlySchema(x: Pieces)
    requires Text(x) != ""
    ensures Slot(x) == 0 ==> x.schema != ""
  {}

  /** The character function on the bytes that each piece can have. */
  lemma NextState(s: State, c: char)
    ensures var t := ParseUrlChar(s, c);
            && (IsAlpha(c) && (s.ReqSpacesBeforeUrl? || s.ReqSchema?) ==> t.ReqSchema?)
            && (c == ':' && s.ReqSchema? ==> t.ReqSchemaSlash?)
            && (c == '/' && s.ReqSchemaSlash? ==> t.ReqSchemaSlashSlash?)
            && (c == '/' && s.ReqSchemaSlashSlash? ==> t.ReqServerStart?)
            && (IsServerChar(c) && (s.ReqServerStart? || s.ReqServer? || (s.ReqServerWithAt? && c != '@')) ==>
                  t == if c == '@' then ReqServerWithAt else ReqServer)
            && ((c == '/' || c == '*') && s.ReqSpacesBeforeUrl? ==> t.ReqPath?)
            && (c == '/' && (s.ReqServerStart? || s.ReqServer? || s.ReqServerWithAt?) ==> t.ReqPath?)
            && (IsUrlChar(c) && s.ReqPath? ==> t.ReqPath?)
            && (c == '?' && (s.ReqServerStart? || s.ReqServer? || s.ReqServerWithAt? || s.ReqPath?) ==> t.ReqQueryStringStart?)
            && (IsQueryChar(c) && (s.ReqQueryStringStart? || s.ReqQueryString?) ==> t.ReqQueryString?)
            && (c == '#' && (s.ReqPath? || s.ReqQueryStringStart? || s.ReqQueryString? || s.ReqFragmentStart?) ==> t.ReqFragmentStart?)
            && (IsFragmentChar(c) && (s.ReqFragment? || (s.ReqFragmentStart? && c != '#')) ==> t.ReqFragment?)
  {}

  /** With a further byte the pieces are the beginning of a URL. */
  predicate Longer(x: Pieces, connect: bool, k: nat, c: char) { Slot(x) <= k < 8 && Fits(Put(x, k, c), connect) }

  /** Then they are one without it, and the parser accepts the byte as part of the same piece. */
  predicate Accepts(x: Pieces, connect: bool, k: nat, c: char) {
    && Fits(x, connect)
    && var t := ParseUrlChar(StateOf(x, connect), c);
       !t.Dead? && SlotOf(t) == k
  }

  lemma SchemaAccepted(x: Pieces, connect: bool, c: char)
    requires Longer(x, connect, 0, c)
    ensures Accepts(x, connect, 0, c)
  {
    hide Every, ParseUrlChar, IsAlpha, IsUrlChar, IsServerChar, IsQueryChar, IsFragmentChar;
    EverySnoc(x.schema, c, IsAlpha);
    NextState(StateOf(x, connect), c);
  }

  lemma SlashesAccepted(x: Pieces, connect: bool, c: char)
    requires Longer(x, connect, 1, c)
    ensures Accepts(x, connect, 1, c)
  {
    hide Every, ParseUrlChar, IsAlpha, IsUrlChar, IsServerChar, IsQueryChar, IsFragmentChar;
    assert x.slashes == Init(x.slashes + [c]) && c == Last(x.slashes + [c]);
    assert Init("://") == ":/" && Init(":/") == ":" && Init(":") == "";
    NextState(StateOf(x, connect), c);
  }

  lemma AuthorityAccepted(x: Pieces, connect: bool, c: char)
    requires Longer(x, connect, 2, c)
    ensures Accepts(x, connect, 2, c)
  {
    hide Every, ParseUrlChar, IsAlpha, IsUrlChar, IsServerChar, IsQueryChar, IsFragmentChar;
    EverySnoc(x.authority, c, IsServerChar);
    AtsSnoc(x.authority, c);
    hide SingleAts;
    if x.authority == "" {} else {}
    NextState(StateOf(x, connect), c);
  }

  lemma PathAccepted(x: Pieces, connect: bool, c: char)
    requires Longer(x, connect, 3, c)
    ensures Accepts(x, connect, 3, c)
  {
    hide Every, ParseUrlChar, IsAlpha, IsUrlChar, IsServerChar, IsQueryChar, IsFragmentChar;
    EverySnoc(x.path, c, IsUrlChar);
    if x.path == "" { assert c == (x.path + [c])[0]; }
    NextState(StateOf(x, connect), c);
  }

  lemma MarkAccepted(x: Pieces, connect: bool, c: char)
    requires Longer(x, connect, 4, c)
    ensures Accepts(x, connect, 4, c)
  {
    hide Every, ParseUrlChar, IsAlpha, IsUrlChar, IsServerChar, IsQueryChar, IsFragmentChar;
    assert c == Last(x.mark + [c]) && |x.mark + [c]| == |x.mark| + 1;
    NextState(StateOf(x, connect), c);
  }

  lemma QueryAccepted(x: Pieces, connect: bool, c: char)
    requires Longer(x, connect, 5, c)
    ensures Accepts(x, connect, 5, c)
  {
    hide Every, ParseUrlChar, IsAlpha, IsUrlChar, IsServerChar, IsQueryChar, IsFragmentChar;
    EverySnoc(x.query, c, IsQueryChar);
    NextState(StateOf(x, connect), c);
  }

  lemma HashesAccepted(x: Pieces, connect: bool, c: char)
    requires Longer(x, connect, 6, c)
    ensures Accepts(x, connect, 6, c)
  {
    hide Every, ParseUrlChar, IsAlpha, IsUrlChar, IsServerChar, IsQueryChar, IsFragmentChar;
    EverySnoc(x.hashes, c, IsHash);
    NextState(StateOf(x, connect), c);
  }

  lemma FragmentAccepted(x: Pieces, connect: bool, c: char)
    requires Longer(x, connect, 7, c)
    ensures Accepts(x, connect, 7, c)
  {
    hide Every, ParseUrlChar, IsAlpha, IsUrlChar, IsServerChar, IsQueryChar, IsFragmentChar;
    EverySnoc(x.fragment, c, IsFragmentChar);
    if x.fragment == "" { assert c == (x.fragment + [c])[0]; }
    NextState(StateOf(x, connect), c);
  }

  lemma LongerAccepted(x: Pieces, connect: bool, k: nat, c: char)
    requires Longer(x, connect, k, c) && k < 8
    ensures Accepts(x, connect, k, c)
  {
    hide Longer, Accepts;
    match k
    case 0 => SchemaAccepted(x, connect, c);
    case 1 => SlashesAccepted(x, connect, c);
    case 2 => AuthorityAccepted(x, connect, c);
    case 3 => PathAccepted(x, connect, c);
    case 4 => MarkAccepted(x, connect, c);
    case 5 => QueryAccepted(x, connect, c);
    case 6 => HashesAccepted(x, connect, c);
    case _ => FragmentAccepted(x, connect, c);
  }

  lemma {:induction false} FitsRead(x: Pieces, connect: bool)
    requires Fits(x, connect)
    ensures Read(Text(x), connect) == Some(x)
    decreases |Text(x)|
  {
    hide Fits, Put, StateOf, ParseUrlChar, Slot, SlotOf;
    if Text(x) == "" {
      assert x == NOTHING;
    } else {
      var y, k, c := LastPut(x);
      PutText(y, k, c);
      LongerAccepted(y, connect, k, c);
      assert Init(Text(x)) == Text(y);
      FitsRead(y, connect);
    }
  }

  // ---------------------------------------------------------------- the authority

  datatype HostState =
    | HostDead | UserinfoStart | InUserinfo | HostStart | InHost
    | V6Start | InV6 | V6End | ZoneStart | InZone | PortStart | InPort

  /** `http_parse_host_char`. */
  function ParseHostChar(s: HostState, ch: char): HostState {
    match s
    case UserinfoStart => UserinfoChar(ch)
    case InUserinfo => UserinfoChar(ch)
    case HostStart => if ch == '[' then V6Start else if IsHostChar(ch) then InHost else HostDead
    case InHost => if IsHostChar(ch) then InHost else AfterHost(ch)
    case V6End => AfterHost(ch)
    case InV6 => if ch == ']' then V6End else if IsV6Char(ch) then InV6 else if ch == '%' then ZoneStart else HostDead
    case V6Start => if IsV6Char(ch) then InV6 else HostDead
    case InZone => if ch == ']' then V6End else ZoneChar(ch)
    case ZoneStart => ZoneChar(ch)
    case InPort => if IsNum(ch) then InPort else HostDead
    case PortStart => if IsNum(ch) then InPort else HostDead
    case HostDead => HostDead
  }

  function UserinfoChar(ch: char): HostState {
    if ch == '@' then HostStart else if IsUserinfoChar(ch) then InUserinfo else HostDead
  }
  function AfterHost(ch: char): HostState { if ch == ':' then PortStart else HostDead }
  predicate IsV6Char(ch: char) { IsHex(ch) || ch == ':' || ch == '.' }
  predicate IsZoneChar(ch: char) { IsAlphaNum(ch) || ch in {'%', '.', '-', '_', '~'} }
  function ZoneChar(ch: char): HostState { if IsZoneChar(ch) then InZone else HostDead }

  /** An authority in its pieces, delimiters included. */
  datatype Authority = Authority(
    userinfo: string, at: string, open: string, address: string, zone: string, close: string, colon: string, port: string)

  const NO_AUTHORITY := Authority("", "", "", "", "", "", "", "")

  function HostText(a: Authority): string { a.userinfo + a.at + a.open + a.address + a.zone + a.close + a.colon + a.port }

  /** The beginning of an authority, or all of it; `ats` when there is an at-sign in it. */
  predicate HostFits(a: Authority, ats: bool) {
    && Every(a.userinfo, IsUserinfoChar) && (a.userinfo != "" ==> ats)
    && a.at in {"", "@"} && (a.at != "" ==> ats)
    && a.open in {"", "["} && (a.open != "" ==> ats == (a.at != ""))
    && Every(a.address, if a.open == "" then IsHostChar else IsV6Char) && (a.address != "" ==> ats == (a.at != ""))
    && (a.zone != "" ==> a.open != "" && a.address != "" && a.zone[0] == '%' && Every(a.zone[1..], IsZoneChar))
    && a.close in {"", "]"} && (a.close != "" ==> a.open != "" && a.address != "" && |a.zone| != 1)
    && a.colon in {"", ":"} && (a.colon != "" ==> a.address != "" && (a.open != "" ==> a.close != ""))
    && Every(a.port, IsNum) && (a.port != "" ==> a.colon != "")
  }

  /** An authority that has a host, and is closed. */
  predicate Complete(a: Authority) {
    a.address != "" && (a.open != "" ==> a.close != "") && (a.colon != "" ==> a.port != "")
  }

  function HostStateOf(a: Authority, ats: bool): HostState {
    if a.port != "" then InPort
    else if a.colon != "" then PortStart
    else if a.close != "" then V6End
    else if a.zone != "" then (if |a.zone| == 1 then ZoneStart else InZone)
    else if a.address != "" then (if a.open == "" then InHost else InV6)
    else if a.open != "" then V6Start
    else if a.at != "" then HostStart
    else if a.userinfo != "" then InUserinfo
    else if ats then UserinfoStart else HostStart
  }

  /** The piece in which the last byte is. */
  function HostSlot(a: Authority): nat {
    if a.port != "" then 7 else if a.colon != "" then 6 else if a.close != "" then 5 else if a.zone != "" then 4
    else if a.address != "" then 3 else if a.open != "" then 2 else if a.at != "" then 1 else 0
  }

  /** The piece that a state reads. */
  function HostSlotOf(s: HostState): nat {
    match s
    case HostStart => 1
    case V6Start => 2
    case InHost | InV6 => 3
    case ZoneStart | InZone => 4
    case V6End => 5
    case PortStart => 6
    case InPort => 7
    case _ => 0
  }

  /** A byte more for a piece. */
  function HostPut(a: Authority, k: nat, c: char): Authority {
    match k
    case 0 => a.(userinfo := a.userinfo + [c])
    case 1 => a.(at := a.at + [c])
    case 2 => a.(open := a.open + [c])
    case 3 => a.(address := a.address + [c])
    case 4 => a.(zone := a.zone + [c])
    case 5 => a.(close := a.close + [c])
    case 6 => a.(colon := a.colon + [c])
    case _ => a.(port := a.port + [c])
  }

  lemma HostPutText(a: Authority, k: nat, c: char)
    requires HostSlot(a) <= k
    ensures HostText(HostPut(a, k, c)) == HostText(a) + [c]
  {
    match k
    case 0 =>
    case 1 =>
    case 2 =>
    case 3 =>
    case 4 =>
    case 5 =>
    case 6 =>
    case _ =>
  }

  predicate HostTakes(a: Authority, ats: bool, c: char, k: nat) {
    var t := ParseHostChar(HostStateOf(a, ats), c);
    !t.HostDead? && HostSlotOf(t) == k && HostFits(a, ats)
  }

  predicate HostContinues(a: Authority, ats: bool, c: char) {
    var t := ParseHostChar(HostStateOf(a, ats), c);
    HostSlot(a) <= HostSlotOf(t) && HostFits(HostPut(a, HostSlotOf(t), c), ats) && HostStateOf(HostPut(a, HostSlotOf(t), c), ats) == t
  }

  lemma HostPutFront(a: Authority, ats: bool, c: char, k: nat)
    requires HostTakes(a, ats, c, k) && k <= 2
    ensures HostContinues(a, ats, c)
  {
    hide IsHostChar, IsV6Char, IsZoneChar, IsUserinfoChar, Every;
    EverySnoc(a.userinfo, c, IsUserinfoChar);
    EveryNone();
    assert "" + "@" == "@" && "" + "[" == "[";
    match k
    case 0 =>
    case 1 =>
    case _ =>
  }

  lemma EveryNone()
    ensures forall p :: Every("", p)
  {}

  lemma HostPutAddress(a: Authority, ats: bool, c: char, k: nat)
    requires HostTakes(a, ats, c, k) && k == 3
    ensures HostContinues(a, ats, c)
  {
    hide IsHostChar, IsV6Char, IsZoneChar, IsUserinfoChar, Every;
    EverySnoc(a.address, c, IsHostChar);
    EverySnoc(a.address, c, IsV6Char);
    if a.open == "" {} else {}
  }

  lemma HostPutZone(a: Authority, ats: bool, c: char, k: nat)
    requires HostTakes(a, ats, c, k) && k == 4
    ensures HostContinues(a, ats, c)
  {
    hide IsHostChar, IsV6Char, IsZoneChar, IsUserinfoChar, Every;
    EveryNone();
    if a.zone == "" {
      assert (a.zone + [c])[1..] == "";
    } else {
      assert (a.zone + [c])[1..] == a.zone[1..] + [c];
      EverySnoc(a.zone[1..], c, IsZoneChar);
    }
  }

  lemma HostPutRest(a: Authority, ats: bool, c: char, k: nat)
    requires HostTakes(a, ats, c, k) && 5 <= k
    ensures HostContinues(a, ats, c)
  {
    hide IsHostChar, IsV6Char, IsZoneChar, IsUserinfoChar, IsNum, Every;
    EverySnoc(a.port, c, IsNum);
    match k
    case 5 => assert a.close + [c] == "]";
    case 6 => assert a.colon + [c] == ":";
    case _ =>
  }

  /** A byte that the parser goes on with makes a longer beginning of an authority. */
  lemma HostPutFits(a: Authority, ats: bool, c: char)
    requires HostFits(a, ats) && !ParseHostChar(HostStateOf(a, ats), c).HostDead?
    ensures HostContinues(a, ats, c)
  {
    hide HostContinues, HostFits;
    var k := HostSlotOf(ParseHostChar(HostStateOf(a, ats), c));
    if k <= 2 { HostPutFront(a, ats, c, k); }
    else if k == 3 { HostPutAddress(a, ats, c, k); }
    else if k == 4 { HostPutZone(a, ats, c, k); }
    else { HostPutRest(a, ats, c, k); }
  }

  /** The pieces of an authority, if the parser's states go along with it. */
  function ReadHost(text: string, ats: bool): Option<Authority> {
    if text == "" then Some(NO_AUTHORITY)
    else match ReadHost(Init(text), ats)
      case None => None
      case Some(a) =>
        var t := ParseHostChar(HostStateOf(a, ats), Last(text));
        if t.HostDead? then None else Some(HostPut(a, HostSlotOf(t), Last(text)))
  }

  lemma {:induction false} ReadHostFits(text: string, ats: bool)
    ensures var r := ReadHost(text, ats); r.Some? ==> HostFits(r.value, ats) && HostText(r.value) == text
  {
    hide HostFits, HostPut, HostStateOf, ParseHostChar, HostSlot, HostSlotOf;
    if text == "" {
      NoAuthorityFits(ats);
    } else if ReadHost(text, ats).Some? {
      ReadHostFits(Init(text), ats);
      var a := ReadHost(Init(text), ats).value;
      HostPutFits(a, ats, Last(text));
      HostPutText(a, HostSlotOf(ParseHostChar(HostStateOf(a, ats), Last(text))), Last(text));
    }
  }

  lemma NoAuthorityFits(ats: bool)
    ensures HostFits(NO_AUTHORITY, ats) && HostText(NO_AUTHORITY) == ""
  {}

  /** The character function on the bytes that each piece can have. */
  lemma NextHostState(s: HostState, c: char)
    ensures var t := ParseHostChar(s, c);
            && (IsUserinfoChar(c) && (s.UserinfoStart? || s.InUserinfo?) ==> t.InUserinfo?)
            && (c == '@' && (s.UserinfoStart? || s.InUserinfo?) ==> t.HostStart?)
            && (c == '[' && s.HostStart? ==> t.V6Start?)
            && (IsHostChar(c) && (s.HostStart? || s.InHost?) ==> t.InHost?)
            && (IsV6Char(c) && (s.V6Start? || s.InV6?) ==> t.InV6?)
            && (c == '%' && s.InV6? ==> t.ZoneStart?)
            && (IsZoneChar(c) && (s.ZoneStart? || s.InZone?) ==> t.InZone?)
            && (c == ']' && (s.InV6? || s.InZone?) ==> t.V6End?)
            && (c == ':' && (s.InHost? || s.V6End?) ==> t.PortStart?)
            && (IsNum(c) && (s.PortStart? || s.InPort?) ==> t.InPort?)
  {}

  /** With a further byte the pieces are the beginning of an authority. */
  predicate HostLonger(a: Authority, ats: bool, k: nat, c: char) { HostSlot(a) <= k < 8 && HostFits(HostPut(a, k, c), ats) }

  /** Then they are one without it, and the parser accepts the byte as part of the same piece. */
  predicate HostAccepts(a: Authority, ats: bool, k: nat, c: char) {
    && HostFits(a, ats)
    && var t := ParseHostChar(HostStateOf(a, ats), c);
       !t.HostDead? && HostSlotOf(t) == k
  }

  lemma UserinfoAccepted(a: Authority, ats: bool, c: char)
    requires HostLonger(a, ats, 0, c)
    ensures HostAccepts(a, ats, 0, c)
  {
    hide Every, ParseHostChar, IsHostChar, IsV6Char, IsZoneChar, IsUserinfoChar, IsNum;
    EverySnoc(a.userinfo, c, IsUserinfoChar);
    NextHostState(HostStateOf(a, ats), c);
  }

  lemma AtAccepted(a: Authority, ats: bool, c: char)
    requires HostLonger(a, ats, 1, c)
    ensures HostAccepts(a, ats, 1, c)
  {
    hide Every, ParseHostChar, IsHostChar, IsV6Char, IsZoneChar, IsUserinfoChar, IsNum;
    assert c == Last(a.at + [c]) && |a.at + [c]| == |a.at| + 1;
    NextHostState(HostStateOf(a, ats), c);
  }

  lemma OpenAccepted(a: Authority, ats: bool, c: char)
    requires HostLonger(a, ats, 2, c)
    ensures HostAccepts(a, ats, 2, c)
  {
    hide Every, ParseHostChar, IsHostChar, IsV6Char, IsZoneChar, IsUserinfoChar, IsNum;
    EveryNone();
    assert c == Last(a.open + [c]) && |a.open + [c]| == |a.open| + 1;
    NextHostState(HostStateOf(a, ats), c);
  }

  lemma AddressAccepted(a: Authority, ats: bool, c: char)
    requires HostLonger(a, ats, 3, c)
    ensures HostAccepts(a, ats, 3, c)
  {
    hide Every, ParseHostChar, IsHostChar, IsV6Char, IsZoneChar, IsUserinfoChar, IsNum;
    EverySnoc(a.address, c, IsHostChar);
    EverySnoc(a.address, c, IsV6Char);
    NextHostState(HostStateOf(a, ats), c);
  }

  lemma ZoneAccepted(a: Authority, ats: bool, c: char)
    requires HostLonger(a, ats, 4, c)
    ensures HostAccepts(a, ats, 4, c)
  {
    hide Every, ParseHostChar, IsHostChar, IsV6Char, IsZoneChar, IsUserinfoChar, IsNum;
    if a.zone == "" {
      assert c == (a.zone + [c])[0];
    } else {
      assert (a.zone + [c])[1..] == a.zone[1..] + [c];
      EverySnoc(a.zone[1..], c, IsZoneChar);
    }
    NextHostState(HostStateOf(a, ats), c);
  }

  lemma CloseAccepted(a: Authority, ats: bool, c: char)
    requires HostLonger(a, ats, 5, c)
    ensures HostAccepts(a, ats, 5, c)
  {
    hide Every, ParseHostChar, IsHostChar, IsV6Char, IsZoneChar, IsUserinfoChar, IsNum;
    assert c == Last(a.close + [c]) && |a.close + [c]| == |a.close| + 1;
    NextHostState(HostStateOf(a, ats), c);
  }

  lemma ColonAccepted(a: Authority, ats: bool, c: char)
    requires HostLonger(a, ats, 6, c)
    ensures HostAccepts(a, ats, 6, c)
  {
    hide Every, ParseHostChar, IsHostChar, IsV6Char, IsZoneChar, IsUserinfoChar, IsNum;
    assert c == Last(a.colon + [c]) && |a.colon + [c]| == |a.colon| + 1;
    NextHostState(HostStateOf(a, ats), c);
  }

  lemma PortAccepted(a: Authority, ats: bool, c: char)
    requires HostLonger(a, ats, 7, c)
    ensures HostAccepts(a, ats, 7, c)
  {
    hide Every, ParseHostChar, IsHostChar, IsV6Char, IsZoneChar, IsUserinfoChar, IsNum;
    EverySnoc(a.port, c, IsNum);
    NextHostState(HostStateOf(a, ats), c);
  }

  lemma HostLongerAccepted(a: Authority, ats: bool, k: nat, c: char)
    requires HostLonger(a, ats, k, c) && k < 8
    ensures HostAccepts(a, ats, k, c)
  {
    hide HostLonger, HostAccepts;
    match k
    case 0 => UserinfoAccepted(a, ats, c);
    case 1 => AtAccepted(a, ats, c);
    case 2 => OpenAccepted(a, ats, c);
    case 3 => AddressAccepted(a, ats, c);
    case 4 => ZoneAccepted(a, ats, c);
    case 5 => CloseAccepted(a, ats, c);
    case 6 => ColonAccepted(a, ats, c);
    case _ => PortAccepted(a, ats, c);
  }

  /** Pieces are shorter pieces and a last byte. */
  lemma HostLastPut(a: Authority) returns (b: Authority, k: nat, c: char)
    requires HostText(a) != ""
    ensures k < 8 && HostSlot(b) <= k && HostPut(b, k, c) == a
  {
    hide HostText;
    OnlyUserinfo(a);
    k := HostSlot(a);
    match k {
      case 0 => Snoc(a.userinfo); b, c := a.(userinfo := Init(a.userinfo)), Last(a.userinfo);
      case 1 => Snoc(a.at); b, c := a.(at := Init(a.at)), Last(a.at);
      case 2 => Snoc(a.open); b, c := a.(open := Init(a.open)), Last(a.open);
      case 3 => Snoc(a.address); b, c := a.(address := Init(a.address)), Last(a.address);
      case 4 => Snoc(a.zone); b, c := a.(zone := Init(a.zone)), Last(a.zone);
      case 5 => Snoc(a.close); b, c := a.(close := Init(a.close)), Last(a.close);
      case 6 => Snoc(a.colon); b, c := a.(colon := Init(a.colon)), Last(a.colon);
      case _ => Snoc(a.port); b, c := a.(port := Init(a.port)), Last(a.port);
    }
  }

  lemma OnlyUserinfo(a: Authority)
    requires HostText(a) != ""
    ensures HostSlot(a) == 0 ==> a.userinfo != ""
  {}

  lemma {:induction false} HostFitsRead(a: Authority, ats: bool)
    requires HostFits(a, ats)
    ensures ReadHost(HostText(a), ats) == Some(a)
    decreases |HostText(a)|
  {
    hide HostFits, HostPut, HostStateOf, ParseHostChar, HostSlot, HostSlotOf;
    if HostText(a) == "" {
      assert a == NO_AUTHORITY;
    } else {
      var b, k, c := HostLastPut(a);
      HostPutText(b, k, c);
      HostLongerAccepted(b, ats, k, c);
      assert Init(HostText(a)) == HostText(b);
      HostFitsRead(b, ats);
    }
  }

  // ---------------------------------------------------------------- accepted URLs

  datatype Parts = Parts(pieces: Pieces, authority: Authority)

  /** What is demanded of a whole URL: a host after a schema, no more than host and port after
      CONNECT, and a port of 16 bits. */
  predicate Whole(q: Parts, connect: bool) {
    var x, a := q.pieces, q.authority;
    && Text(x) != ""
    && (x.schema != "" ==> x.authority != "")
    && (x.authority != "" ==> Complete(a))
    && (connect ==> a.port != "" && a.userinfo == "" && x.path == "" && x.query == "" && x.fragment == "")
    && Decimal(a.port) <= 0xFFFF
  }

  predicate Legal(q: Parts, connect: bool) {
    && Fits(q.pieces, connect)
    && HostText(q.authority) == q.pieces.authority && HostFits(q.authority, '@' in q.pieces.authority)
    && Whole(q, connect)
  }

  /** The parts of a text that is accepted. */
  function SplitUrl(buf: string, connect: bool): Option<Parts> {
    match Read(buf, connect)
    case None => None
    case Some(x) =>
      match ReadHost(x.authority, '@' in x.authority)
      case None => None
      case Some(a) => if Whole(Parts(x, a), connect) then Some(Parts(x, a)) else None
  }

  /** A text is split if and only if it is that of some legal parts, and then into those. */
  lemma SplitExactly(buf: string, connect: bool)
    ensures SplitUrl(buf, connect).Some? <==> exists q :: Legal(q, connect) && Text(q.pieces) == buf
    ensures forall q | Legal(q, connect) && Text(q.pieces) == buf :: SplitUrl(buf, connect) == Some(q)
  {
    hide Fits, HostFits, Text, HostText, Whole, Read, ReadHost;
    if SplitUrl(buf, connect).Some? {
      var q := SplitUrl(buf, connect).value;
      ReadFits(buf, connect);
      ReadHostFits(q.pieces.authority, '@' in q.pieces.authority);
      assert Legal(q, connect) && Text(q.pieces) == buf;
    }
    forall q | Legal(q, connect) && Text(q.pieces) == buf
      ensures SplitUrl(buf, connect) == Some(q)
    {
      FitsRead(q.pieces, connect);
      HostFitsRead(q.authority, '@' in q.pieces.authority);
    }
  }
}
