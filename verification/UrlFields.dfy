/** `http_parser_parse_url` and `http_parse_host`: splitting a URL into fields of the buffer. A URL
    is accepted if and only if the grammar has it, and the fields are then where its pieces are. */
module UrlFields {
  import opened HttpTypes
  import opened HttpSwitch
  import opened Decimals
  import opened Options
  import opened UrlGrammar

  /** `enum http_parser_url_fields`, in the order in which fields occur in a URL. */
  datatype Field = Schema | Userinfo | Host | Port | Path | Query | Fragment

  datatype Span = Span(off: nat, len: nat)

  /** `struct http_parser_url`; entries of fields that are not set are left over from earlier. */
  datatype Url = Url(fields: set<Field>, port: nat, data: map<Field, Span>)

  /** 16-bit wrap-around. */
  function U16(x: int): nat { x % 0x1_0000 }

  // ---------------------------------------------------------------- what an accepted URL means

  predicate Delimiter(c: char) { c in {':', '/', '?', '#', '@', '[', ']'} }

  function Start(u: Url, f: Field): nat { if f in u.data then u.data[f].off else 0 }
  function End(u: Url, f: Field): nat { if f in u.data then u.data[f].off + u.data[f].len else 0 }

  /** Byte `i` is in the field. */
  predicate Holds(u: Url, f: Field, i: nat) { f in u.fields && Start(u, f) <= i < End(u, f) }

  predicate Covered(u: Url, i: nat) { exists f :: Holds(u, f, i) }

  function Rank(f: Field): nat {
    match f case Schema => 0 case Userinfo => 1 case Host => 2 case Port => 3 case Path => 4 case Query => 5 case Fragment => 6
  }

  /** The fields are within the buffer, not empty, and in order; so no two overlap. */
  predicate InOrder(u: Url, n: nat) {
    && (forall f <- u.fields :: Start(u, f) < End(u, f) <= n)
    && (forall f, g | f in u.fields && g in u.fields && Rank(f) < Rank(g) :: End(u, f) <= Start(u, g))
  }

  /** The buffer is divided into fields and delimiters: no byte is in two fields, or in none and no delimiter. */
  ghost predicate Partition(buf: string, u: Url) {
    && InOrder(u, |buf|) && (forall i | 0 <= i < |buf| :: Covered(u, i) || Delimiter(buf[i]))
    && (forall f, g, i: nat | Holds(u, f, i) && Holds(u, g, i) :: f == g)
    && (Schema in u.fields ==> Host in u.fields)
    && u.port == (if Port in u.fields then Decimal(buf[Start(u, Port)..End(u, Port)]) else 0)
    && u.port <= 0xFFFF
  }

  lemma Disjoint(u: Url, n: nat, f: Field, g: Field, i: nat)
    requires InOrder(u, n) && Holds(u, f, i) && Holds(u, g, i)
    ensures f == g
  {
    assert Rank(f) == Rank(g) ==> f == g;
  }

  // ---------------------------------------------------------------- where the pieces are

  /** The pieces that are fields, the authority counting as the host. */
  function OuterPiece(x: Pieces, f: Field): string {
    match f
    case Schema => x.schema
    case Host => x.authority
    case Path => x.path
    case Query => x.query
    case Fragment => x.fragment
    case _ => ""
  }

  function OuterOffset(x: Pieces, f: Field): nat {
    match f
    case Schema => 0
    case Host | Userinfo | Port => |x.schema| + |x.slashes|
    case Path => |x.schema| + |x.slashes| + |x.authority|
    case Query => |x.schema| + |x.slashes| + |x.authority| + |x.path| + |x.mark|
    case Fragment => |x.schema| + |x.slashes| + |x.authority| + |x.path| + |x.mark| + |x.query| + |x.hashes|
  }

  function InnerPiece(a: Authority, f: Field): string {
    match f case Userinfo => a.userinfo case Host => a.address + a.zone case Port => a.port case _ => ""
  }

  function InnerOffset(a: Authority, f: Field): nat {
    match f
    case Host => |a.userinfo| + |a.at| + |a.open|
    case Port => |a.userinfo| + |a.at| + |a.open| + |a.address| + |a.zone| + |a.close| + |a.colon|
    case _ => 0
  }

  predicate Inner(f: Field) { f.Userinfo? || f.Host? || f.Port? }

  function Piece(q: Parts, f: Field): string { if Inner(f) then InnerPiece(q.authority, f) else OuterPiece(q.pieces, f) }

  function Offset(q: Parts, f: Field): nat {
    OuterOffset(q.pieces, f) + if Inner(f) then InnerOffset(q.authority, f) else 0
  }

  /** The entry of a field is that of a piece; without one the field is not set. */
  predicate At(u: Url, f: Field, piece: string, off: nat) {
    (f in u.fields <==> piece != "") && (f in u.fields ==> f in u.data && u.data[f] == Span(off, |piece|))
  }

  predicate Located(u: Url, q: Parts) { forall f: Field :: At(u, f, Piece(q, f), Offset(q, f)) }

  predicate OuterLocated(u: Url, x: Pieces) { forall f: Field :: At(u, f, OuterPiece(x, f), OuterOffset(x, f)) }

  // ---------------------------------------------------------------- the first loop

  /** The field to go on with in a state, none for a delimiter. */
  function FieldOf(s: State): Option<Field> {
    match s
    case ReqSchema => Some(Schema)
    case ReqServerWithAt => Some(Host)
    case ReqServer => Some(Host)
    case ReqPath => Some(Path)
    case ReqQueryString => Some(Query)
    case ReqFragment => Some(Fragment)
    case _ => None
  }

  /** The last field so far. */
  function LastField(x: Pieces): Option<Field> {
    if x.fragment != "" then Some(Fragment) else if x.query != "" then Some(Query) else if x.path != "" then Some(Path)
    else if x.authority != "" then Some(Host) else if x.schema != "" then Some(Schema) else None
  }

  /** A field that starts at byte `p`, or grows by it. */
  function Grown(u: Url, f: Field, starts: bool, p: nat): Url {
    var d := if f in u.data then u.data[f] else Span(0, 0);
    u.(fields := u.fields + {f}, data := u.data[f := if starts then Span(U16(p), 1) else Span(d.off, U16(d.len + 1))])
  }

  /** A field byte: it belongs to the field before it or starts a new one, and is then where the
      pieces say. */
  lemma FieldByte(x: Pieces, s: State, c: char, f: Field, u: Url)
    requires InUrl(s) && Slot(x) <= SlotOf(s) && FieldOf(s) == Some(f) && OuterLocated(u, x) && |Text(x)| < 0xFFFF
    ensures var y := Put(x, SlotOf(s), c);
            && (LastField(x) == Some(f) <==> f in u.fields) && LastField(y) == Some(f)
            && OuterLocated(Grown(u, f, f !in u.fields, |Text(x)|), y)
  {
    hide Text, Grown;
    var y := Put(x, SlotOf(s), c);
    var g := Grown(u, f, f !in u.fields, |Text(x)|);
    assert At(u, f, OuterPiece(x, f), OuterOffset(x, f));
    forall h: Field
      ensures At(g, h, OuterPiece(y, h), OuterOffset(y, h))
    {
      assert At(u, h, OuterPiece(x, h), OuterOffset(x, h));
      if h == f { GrowsHere(x, s, c, f, u); } else { GrowsElsewhere(x, s, c, f, u, h); }
    }
  }

  lemma GrowsHere(x: Pieces, s: State, c: char, f: Field, u: Url)
    requires InUrl(s) && Slot(x) <= SlotOf(s) && FieldOf(s) == Some(f) && |Text(x)| < 0xFFFF
    requires At(u, f, OuterPiece(x, f), OuterOffset(x, f))
    ensures var y := Put(x, SlotOf(s), c); At(Grown(u, f, f !in u.fields, |Text(x)|), f, OuterPiece(y, f), OuterOffset(y, f))
  {
    assert |Text(x)| == OuterOffset(x, f) + |OuterPiece(x, f)|;
    hide Text;
    if s.ReqSchema? {} else if s.ReqPath? {} else if s.ReqQueryString? {} else if s.ReqFragment? {} else {}
  }

  lemma GrowsElsewhere(x: Pieces, s: State, c: char, f: Field, u: Url, h: Field)
    requires InUrl(s) && Slot(x) <= SlotOf(s) && FieldOf(s) == Some(f) && h != f
    requires At(u, h, OuterPiece(x, h), OuterOffset(x, h))
    ensures var y := Put(x, SlotOf(s), c); At(Grown(u, f, f !in u.fields, |Text(x)|), h, OuterPiece(y, h), OuterOffset(y, h))
  {
    hide Text;
    if s.ReqSchema? {} else if s.ReqPath? {} else if s.ReqQueryString? {} else if s.ReqFragment? {} else {}
  }

  /** A delimiter leaves the fields where they are. */
  lemma DelimiterByte(x: Pieces, s: State, c: char, u: Url)
    requires InUrl(s) && Slot(x) <= SlotOf(s) && FieldOf(s) == None && OuterLocated(u, x)
    ensures var y := Put(x, SlotOf(s), c); LastField(y) == LastField(x) && OuterLocated(u, y) && y.authority == x.authority
  {
    var y := Put(x, SlotOf(s), c);
    forall h: Field
      ensures At(u, h, OuterPiece(y, h), OuterOffset(y, h))
    {
      assert At(u, h, OuterPiece(x, h), OuterOffset(x, h));
    }
  }

  lemma {:induction false} ReadInit(buf: string, p: nat, connect: bool)
    requires p <= |buf| && Read(buf[..p], connect).None?
    ensures Read(buf, connect).None?
    decreases |buf| - p
  {
    if p == |buf| {
      assert buf[..p] == buf;
    } else {
      assert Init(buf[..p + 1]) == buf[..p];
      ReadInit(buf, p + 1, connect);
    }
  }

  /** The first loop: the fields, the authority counting as the host; false for a URL that cannot
      be divided. */
  method Divide(buf: string, connect: bool, u0: Url) returns (ok: bool, u: Url, foundAt: bool)
    requires |buf| <= 0xFFFF && u0.fields == {}
    ensures ok <==> Read(buf, connect).Some?
    ensures ok ==> var x := Read(buf, connect).value; OuterLocated(u, x) && (foundAt <==> '@' in x.authority)
    ensures u.port == u0.port
  {
    hide Fits, StateOf, Put, ParseUrlChar, OuterLocated, LastField, Text, Slot, SlotOf;
    u := u0;
    var s := if connect then ReqServerStart else ReqSpacesBeforeUrl;
    var old_: Option<Field> := None;
    foundAt := false;
    ghost var x := NOTHING;
    Begins(u, connect);
    var p := 0;
    while p < |buf|
      invariant p <= |buf| && Read(buf[..p], connect) == Some(x) && s == StateOf(x, connect)
      invariant OuterLocated(u, x) && old_ == LastField(x) && (foundAt <==> '@' in x.authority)
      invariant u.port == u0.port
    {
      assert Init(buf[..p + 1]) == buf[..p] && Last(buf[..p + 1]) == buf[p];
      var t := ParseUrlChar(s, buf[p]);
      if t.Dead? {
        ReadInit(buf, p + 1, connect);
        return false, u, foundAt;
      }
      ReadFits(buf[..p], connect);
      PutFits(x, connect, buf[p]);
      var uf := FieldOf(t);
      if uf.None? {
        DelimiterByte(x, t, buf[p], u);
      } else {
        if t.ReqServerWithAt? { foundAt := true; }
        FieldByte(x, t, buf[p], uf.value, u);
        AtSigns(x, t, connect, buf[p]);
        SetFields(u, x, uf.value);
        if uf == old_ {
          u := u.(data := u.data[uf.value := u.data[uf.value].(len := U16(u.data[uf.value].len + 1))]);
        } else {
          u := u.(data := u.data[uf.value := Span(U16(p), 1)], fields := u.fields + {uf.value});
        }
        old_ := uf;
      }
      x := Put(x, SlotOf(t), buf[p]);
      s, p := t, p + 1;
    }
    assert buf[..p] == buf;
    return true, u, foundAt;
  }

  lemma Begins(u: Url, connect: bool)
    requires u.fields == {}
    ensures OuterLocated(u, NOTHING) && LastField(NOTHING) == None
    ensures StateOf(NOTHING, connect) == if connect then ReqServerStart else ReqSpacesBeforeUrl
  {}

  /** An at-sign in the authority shows in the state. */
  lemma AtSigns(x: Pieces, t: State, connect: bool, c: char)
    requires t == ParseUrlChar(StateOf(x, connect), c) && InUrl(t)
    ensures var y := Put(x, SlotOf(t), c); '@' in y.authority <==> ('@' in x.authority || t.ReqServerWithAt?)
  {
    hide StateOf, IsUrlChar, IsUserinfoChar, IsAlpha;
  }

  lemma SetFields(u: Url, x: Pieces, f: Field)
    requires OuterLocated(u, x)
    ensures f in u.fields ==> f in u.data && u.fields + {f} == u.fields
  {
    assert At(u, f, OuterPiece(x, f), OuterOffset(x, f));
  }

  // ---------------------------------------------------------------- the authority

  /** The authority's fields, the authority starting at `o`; the host's entry is there from the
      beginning. */
  predicate InnerLocated(u: Url, a: Authority, o: nat) {
    && Host in u.fields && Host in u.data && u.data[Host].len == |InnerPiece(a, Host)|
    && (a.address != "" ==> u.data[Host].off == o + InnerOffset(a, Host))
    && At(u, Userinfo, a.userinfo, o) && At(u, Port, a.port, o + InnerOffset(a, Port))
  }

  /** The other fields have not been touched. */
  predicate OnlyInner(u0: Url, u: Url) {
    && u.port == u0.port
    && forall f: Field | !Inner(f) ::
         (f in u.fields <==> f in u0.fields) && (f in u0.data ==> f in u.data && u.data[f] == u0.data[f])
  }

  lemma InnerTrans(u0: Url, u: Url, v: Url)
    requires OnlyInner(u0, u) && OnlyInner(u, v)
    ensures OnlyInner(u0, v)
  {}

  /** One byte more for the host; `starts` when it is the first of a name or an address. */
  method NoteHost(u0: Url, starts: bool, p: nat, ghost a: Authority, ghost o: nat, ghost k: nat, ghost c: char) returns (u: Url)
    requires InnerLocated(u0, a, o) && p == o + |HostText(a)| < 0xFFFF && HostSlot(a) <= k && k in {3, 4}
    requires starts <==> a.address == ""
    requires k == 4 ==> a.address != ""
    ensures InnerLocated(u, HostPut(a, k, c), o) && OnlyInner(u0, u)
  {
    u := u0;
    if starts { u := u.(data := u.data[Host := u.data[Host].(off := U16(p))]); }
    u := u.(data := u.data[Host := u.data[Host].(len := U16(u.data[Host].len + 1))]);
  }

  /** One byte more for the port or the user information. */
  method NoteField(u0: Url, f: Field, starts: bool, p: nat, ghost a: Authority, ghost o: nat, ghost c: char) returns (u: Url)
    requires InnerLocated(u0, a, o) && p == o + |HostText(a)| < 0xFFFF && (f.Port? || (f.Userinfo? && HostSlot(a) == 0))
    requires starts <==> InnerPiece(a, f) == ""
    ensures InnerLocated(u, HostPut(a, if f.Port? then 7 else 0, c), o) && OnlyInner(u0, u)
  {
    u := u0;
    if starts { u := u.(data := u.data[f := Span(U16(p), 0)], fields := u.fields + {f}); }
    u := u.(data := u.data[f := u.data[f].(len := U16(u.data[f].len + 1))]);
  }

  /** The updates for one byte of the authority. */
  method Note(u0: Url, s: HostState, t: HostState, p: nat, ghost a: Authority, ghost ats: bool, ghost o: nat, ghost c: char)
    returns (u: Url)
    requires InnerLocated(u0, a, o) && p == o + |HostText(a)| < 0xFFFF
    requires HostFits(a, ats) && s == HostStateOf(a, ats) && t == ParseHostChar(s, c) && !t.HostDead?
    ensures InnerLocated(u, HostPut(a, HostSlotOf(t), c), o) && OnlyInner(u0, u)
  {
    hide HostFits, HostText, ParseHostChar, InnerLocated;
    HostPutFits(a, ats, c);
    HostStarts(a, ats, c);
    u := u0;
    match t {
      case InHost => u := NoteHost(u, !s.InHost?, p, a, o, 3, c);
      case InV6 => u := NoteHost(u, !s.InV6?, p, a, o, 3, c);
      case ZoneStart => u := NoteHost(u, false, p, a, o, 4, c);
      case InZone => u := NoteHost(u, false, p, a, o, 4, c);
      case InPort => u := NoteField(u, Port, !s.InPort?, p, a, o, c);
      case InUserinfo => u := NoteField(u, Userinfo, !s.InUserinfo?, p, a, o, c);
      case _ => DelimiterInside(u, a, o, HostSlotOf(t), c);
    }
  }

  lemma DelimiterInside(u: Url, a: Authority, o: nat, k: nat, c: char)
    requires InnerLocated(u, a, o) && HostSlot(a) <= k && k in {1, 2, 5, 6}
    ensures InnerLocated(u, HostPut(a, k, c), o) && OnlyInner(u, u)
  {
    hide HostText;
  }

  /** What the states say about the pieces there are. */
  lemma HostStarts(a: Authority, ats: bool, c: char)
    requires HostFits(a, ats)
    ensures var s := HostStateOf(a, ats);
            var t := ParseHostChar(s, c);
            && (t.InHost? ==> (s.InHost? <==> a.address != "")) && (t.InV6? ==> (s.InV6? <==> a.address != ""))
            && (t.ZoneStart? || t.InZone? ==> a.address != "")
            && (t.InPort? ==> (s.InPort? <==> a.port != "")) && (t.InUserinfo? ==> (s.InUserinfo? <==> a.userinfo != ""))
  {
    hide IsHostChar, IsV6Char, IsZoneChar, IsUserinfoChar, IsNum, Every;
  }

  /** Where the states may end. */
  lemma EndsComplete(a: Authority, ats: bool)
    requires HostFits(a, ats)
    ensures var s := HostStateOf(a, ats);
            Complete(a) <==> !(s.HostStart? || s.V6Start? || s.InV6? || s.ZoneStart? || s.InZone? || s.PortStart?
                               || s.InUserinfo? || s.UserinfoStart?)
  {
    hide Every;
  }

  lemma {:induction false} ReadHostInit(text: string, p: nat, ats: bool)
    requires p <= |text| && ReadHost(text[..p], ats).None?
    ensures ReadHost(text, ats).None?
    decreases |text| - p
  {
    if p == |text| {
      assert text[..p] == text;
    } else {
      assert Init(text[..p + 1]) == text[..p];
      ReadHostInit(text, p + 1, ats);
    }
  }

  /** `http_parse_host`: true for an authority that is not well formed. */
  method ParseHost(buf: string, u0: Url, foundAt: bool) returns (failed: bool, u: Url)
    requires Host in u0.fields && Host in u0.data && u0.data[Host].off + u0.data[Host].len <= |buf| <= 0xFFFF
    requires Userinfo !in u0.fields && Port !in u0.fields
    ensures var d := u0.data[Host];
            var r := ReadHost(buf[d.off..d.off + d.len], foundAt);
            && (failed <==> r.None? || !Complete(r.value))
            && (!failed ==> InnerLocated(u, r.value, d.off) && OnlyInner(u0, u))
  {
    hide HostFits, HostStateOf, HostPut, ParseHostChar, InnerLocated, HostText, HostSlot, HostSlotOf, Complete;
    u := u0;
    var o := u.data[Host].off;
    var end := o + u.data[Host].len;
    ghost var text := buf[o..end];
    u := u.(data := u.data[Host := Span(o, 0)]);
    var s := if foundAt then UserinfoStart else HostStart;
    ghost var a := NO_AUTHORITY;
    HostBegins(u, o, foundAt);
    var p := o;
    while p < end
      invariant o <= p <= end && ReadHost(text[..p - o], foundAt) == Some(a) && s == HostStateOf(a, foundAt)
      invariant InnerLocated(u, a, o) && OnlyInner(u0, u)
    {
      assert Init(text[..p + 1 - o]) == text[..p - o] && Last(text[..p + 1 - o]) == buf[p];
      var t := ParseHostChar(s, buf[p]);
      if t.HostDead? {
        ReadHostInit(text, p + 1 - o, foundAt);
        return true, u;
      }
      ReadHostFits(text[..p - o], foundAt);
      HostPutFits(a, foundAt, buf[p]);
      ghost var before := u;
      u := Note(u, s, t, p, a, foundAt, o, buf[p]);
      InnerTrans(u0, before, u);
      a := HostPut(a, HostSlotOf(t), buf[p]);
      s, p := t, p + 1;
    }
    assert text[..p - o] == text;
    ReadHostFits(text, foundAt);
    EndsComplete(a, foundAt);
    if s.HostStart? || s.V6Start? || s.InV6? || s.ZoneStart? || s.InZone? || s.PortStart? || s.InUserinfo? || s.UserinfoStart? {
      return true, u;
    }
    return false, u;
  }

  lemma HostBegins(u: Url, o: nat, ats: bool)
    requires Host in u.fields && Host in u.data && u.data[Host] == Span(o, 0) && Userinfo !in u.fields && Port !in u.fields
    ensures InnerLocated(u, NO_AUTHORITY, o) && HostStateOf(NO_AUTHORITY, ats) == if ats then UserinfoStart else HostStart
  {}

  // ---------------------------------------------------------------- the whole

  /** The port's value; given up on as soon as it is out of range, which is exactly when the whole
      value is. */
  method PortValue(buf: string, off: nat, len: nat) returns (ok: bool, v: nat)
    requires off + len <= |buf| && Digits(buf[off..off + len])
    ensures ok <==> Decimal(buf[off..off + len]) <= 0xFFFF
    ensures ok ==> v == Decimal(buf[off..off + len])
  {
    hide Digits, Decimal;
    v := 0;
    var p := off;
    assert buf[off..p] == "";
    DecimalSnoc("", '0');
    while p < off + len
      invariant off <= p <= off + len && v == Decimal(buf[off..p]) <= 0xFFFF
    {
      assert buf[p] == buf[off..off + len][p - off];
      DigitAt(buf[off..off + len], p - off);
      assert buf[off..p + 1] == buf[off..p] + [buf[p]];
      DecimalSnoc(buf[off..p], buf[p]);
      v := v * 10;
      v := v + (buf[p] as int - '0' as int);
      p := p + 1;
      if v > 0xFFFF {
        assert buf[off..off + len] == buf[off..p] + buf[p..off + len];
        DecimalGrows(buf[off..p], buf[p..off + len]);
        return false, v;
      }
    }
    return true, v;
  }

  lemma DigitAt(s: string, i: nat)
    requires Digits(s) && i < |s|
    ensures IsNum(s[i])
  {
    assert s[i] in s;
  }

  /** After the first loop the host's entry is the authority's. */
  lemma AuthorityAt(u: Url, x: Pieces)
    requires OuterLocated(u, x)
    ensures Host in u.fields <==> x.authority != ""
    ensures Schema in u.fields <==> x.schema != ""
    ensures Userinfo !in u.fields && Port !in u.fields
    ensures x.authority != "" ==>
              && Host in u.data && u.data[Host].off + u.data[Host].len <= |Text(x)|
              && Text(x)[u.data[Host].off..u.data[Host].off + u.data[Host].len] == x.authority
              && u.data[Host].off == OuterOffset(x, Host)
  {
    assert At(u, Host, x.authority, OuterOffset(x, Host)) by { assert OuterPiece(x, Host) == x.authority; }
    assert At(u, Schema, x.schema, 0) by { assert OuterPiece(x, Schema) == x.schema; }
    assert OuterPiece(x, Userinfo) == OuterPiece(x, Port) == "";
    assert At(u, Userinfo, "", OuterOffset(x, Userinfo)) && At(u, Port, "", OuterOffset(x, Port));
  }

  /** The authority's fields in place of the host that stood for them. */
  lemma Combined(u0: Url, u: Url, x: Pieces, a: Authority)
    requires OuterLocated(u0, x) && OnlyInner(u0, u) && InnerLocated(u, a, OuterOffset(x, Host)) && Complete(a)
    ensures Located(u, Parts(x, a))
  {
    var q := Parts(x, a);
    forall f: Field
      ensures At(u, f, Piece(q, f), Offset(q, f))
    {
      assert At(u0, f, OuterPiece(x, f), OuterOffset(x, f));
    }
  }

  lemma NoAuthority(u: Url, x: Pieces)
    requires OuterLocated(u, x) && x.authority == ""
    ensures Located(u, Parts(x, NO_AUTHORITY))
  {
    var q := Parts(x, NO_AUTHORITY);
    forall f: Field
      ensures At(u, f, Piece(q, f), Offset(q, f))
    {
      assert At(u, f, OuterPiece(x, f), OuterOffset(x, f));
    }
  }

  /** CONNECT has nothing but host and port. */
  lemma ConnectFields(u: Url, q: Parts)
    requires Located(u, q) && Fits(q.pieces, true) && (q.pieces.authority != "" ==> Complete(q.authority))
    requires HostText(q.authority) == q.pieces.authority
    ensures u.fields == {Host, Port} <==>
            q.authority.port != "" && q.authority.userinfo == "" && q.pieces.path == "" && q.pieces.query == "" && q.pieces.fragment == ""
  {
    hide Every, Offset, HostText, SingleAts;
    PortInText(q.authority);
    assert forall f: Field :: At(u, f, Piece(q, f), Offset(q, f));
    forall f: Field
      ensures f in u.fields <==> Piece(q, f) != ""
    {
      assert At(u, f, Piece(q, f), Offset(q, f));
    }
    assert {Host, Port} <= u.fields <==> q.authority.port != "";
    assert u.fields <= {Host, Port} <==> Schema !in u.fields && Userinfo !in u.fields && Path !in u.fields && Query !in u.fields && Fragment !in u.fields
    by { if f: Field :| f in u.fields && f !in {Host, Port} { OtherField(f); } }
  }

  lemma PortInText(a: Authority)
    ensures a.port != "" ==> HostText(a) != ""
  {}

  lemma OtherField(f: Field)
    requires f !in {Host, Port}
    ensures f.Schema? || f.Userinfo? || f.Path? || f.Query? || f.Fragment?
  {}

  lemma Middle(a: string, b: string, c: string)
    ensures (a + b + c)[|a|..|a| + |b|] == b
  {}

  lemma PortSpan(u: Url, q: Parts)
    requires Located(u, q) && HostText(q.authority) == q.pieces.authority && HostFits(q.authority, '@' in q.pieces.authority)
    ensures Port in u.fields <==> q.authority.port != ""
    ensures Port in u.fields ==>
              && Port in u.data && u.data[Port].off + u.data[Port].len <= |Text(q.pieces)|
              && Text(q.pieces)[u.data[Port].off..u.data[Port].off + u.data[Port].len] == q.authority.port && Digits(q.authority.port)
  {
    hide Fits, IsUserinfoChar, IsHostChar, IsV6Char, IsZoneChar;
    assert At(u, Port, Piece(q, Port), Offset(q, Port));
    var x, a := q.pieces, q.authority;
    if a.port != "" {
      var front := a.userinfo + a.at + a.open + a.address + a.zone + a.close + a.colon;
      PortLast(x, a, front);
    }
  }

  lemma PortLast(x: Pieces, a: Authority, front: string)
    requires HostText(a) == x.authority && front == a.userinfo + a.at + a.open + a.address + a.zone + a.close + a.colon
    ensures var o := |x.schema| + |x.slashes| + |front|; o + |a.port| <= |Text(x)| && Text(x)[o..o + |a.port|] == a.port
  {
    var before, after := x.schema + x.slashes, x.path + x.mark + x.query + x.hashes + x.fragment;
    assert Text(x) == before + (front + a.port) + after;
    assert before + (front + a.port) + after == (before + front) + a.port + after;
    Middle(before + front, a.port, after);
  }

  lemma SplitIs(buf: string, connect: bool, x: Pieces, a: Authority)
    requires Read(buf, connect) == Some(x) && ReadHost(x.authority, '@' in x.authority) == Some(a)
    ensures SplitUrl(buf, connect) == if Whole(Parts(x, a), connect) then Some(Parts(x, a)) else None
    ensures Text(x) == buf && HostText(a) == x.authority && Fits(x, connect) && HostFits(a, '@' in x.authority)
  {
    hide Text, HostText, Fits, HostFits, Whole;
    ReadFits(buf, connect);
    ReadHostFits(x.authority, '@' in x.authority);
  }

  /** The authority of a URL that has been divided. */
  method ParseAuthority(buf: string, connect: bool, u0: Url, foundAt: bool, ghost x: Pieces)
    returns (failed: bool, u: Url, ghost a: Authority)
    requires |buf| <= 0xFFFF && OuterLocated(u0, x) && Read(buf, connect) == Some(x) && (foundAt <==> '@' in x.authority)
    ensures !failed ==> && ReadHost(x.authority, foundAt) == Some(a) && Located(u, Parts(x, a)) && u.port == u0.port
                        && (x.authority != "" ==> Complete(a))
    ensures failed ==> SplitUrl(buf, connect).None?
  {
    hide Fits, HostFits, Complete, OuterLocated, InnerLocated, Located, OuterOffset, Text, HostText, OnlyInner, StateOf, ParseUrlChar;
    ReadFits(buf, connect);
    AuthorityAt(u0, x);
    failed, u, a := false, u0, NO_AUTHORITY;
    if Host in u.fields {
      failed, u := ParseHost(buf, u, foundAt);
      if !failed {
        a := ReadHost(x.authority, foundAt).value;
        Combined(u0, u, x, a);
        OnlyInnerPort(u0, u);
      }
    } else {
      NoAuthority(u, x);
    }
  }

  lemma OnlyInnerPort(u0: Url, u: Url)
    requires OnlyInner(u0, u)
    ensures u.port == u0.port
  {}

  method ParsePort(u0: Url, ghost q: Parts, buf: string) returns (ok: bool, u: Url)
    requires Located(u0, q) && HostText(q.authority) == q.pieces.authority && HostFits(q.authority, '@' in q.pieces.authority)
    requires Text(q.pieces) == buf && u0.port == 0
    ensures ok <==> Decimal(q.authority.port) <= 0xFFFF
    ensures ok ==> Located(u, q) && u.port == Decimal(q.authority.port)
  {
    hide Located, HostFits, HostText, Text, Digits, Decimal;
    u := u0;
    PortSpan(u, q);
    if Port in u.fields {
      var v;
      ok, v := PortValue(buf, u.data[Port].off, u.data[Port].len);
      if !ok { return false, u; }
      SamePlaces(u, u.(port := U16(v)), q);
      u := u.(port := U16(v));
    } else {
      DecimalSnoc("", '0');
      ok := true;
    }
  }

  /** `http_parser_parse_url`: 0 for a URL that is accepted. */
  method ParseUrl(buf: string, connect: bool, u0: Url) returns (ret: nat, u: Url)
    requires |buf| <= 0xFFFF
    ensures ret <= 1
    ensures ret == 0 <==> SplitUrl(buf, connect).Some?
    ensures ret == 0 ==> var q := SplitUrl(buf, connect).value; Located(u, q) && u.port == Decimal(q.authority.port)
  {
    hide Fits, HostFits, Complete, OuterLocated, InnerLocated, Located, Digits, Decimal, Text, HostText, SplitUrl, StateOf, ParseUrlChar, Piece, Offset, OuterOffset, Every;
    u := u0;
    if buf == "" {
      EmptyRefused(connect);
      return 1, u;
    }
    u := u.(port := 0, fields := {});
    var ok, foundAt;
    ok, u, foundAt := Divide(buf, connect, u);
    if !ok {
      assert SplitUrl(buf, connect).None? by { NotRead(buf, connect); }
      return 1, u;
    }
    ghost var x := Read(buf, connect).value;
    AuthorityAt(u, x);
    if Schema in u.fields && Host !in u.fields {
      NoHost(buf, connect, x);
      return 1, u;
    }
    var failed;
    ghost var a;
    failed, u, a := ParseAuthority(buf, connect, u, foundAt, x);
    if failed { return 1, u; }
    ghost var q := Parts(x, a);
    SplitIs(buf, connect, x, a);
    if connect {
      ConnectFields(u, q);
      if u.fields != {Host, Port} { return 1, u; }
    }
    ok, u := ParsePort(u, q, buf);
    return if ok then 0 else 1, u;
  }

  lemma EmptyRefused(connect: bool)
    ensures SplitUrl("", connect).None?
  {}

  lemma NotRead(buf: string, connect: bool)
    requires Read(buf, connect).None?
    ensures SplitUrl(buf, connect).None?
  {}

  lemma NoHost(buf: string, connect: bool, x: Pieces)
    requires Read(buf, connect) == Some(x) && x.schema != "" && x.authority == ""
    ensures SplitUrl(buf, connect).None?
  {}

  lemma SamePlaces(u: Url, v: Url, q: Parts)
    requires u.fields == v.fields && u.data == v.data
    ensures Located(u, q) ==> Located(v, q)
  {
    if Located(u, q) {
      forall f: Field
        ensures At(v, f, Piece(q, f), Offset(q, f))
      {
        assert At(u, f, Piece(q, f), Offset(q, f));
      }
    }
  }

  // ---------------------------------------------------------------- the partition

  /** Where the pieces lie in the text. */
  lemma OuterAt(x: Pieces, i: nat)
    requires i < |Text(x)|
    ensures var c := Text(x)[i];
            var o := OuterOffset(x, Host);
            var p := OuterOffset(x, Path);
            var q := OuterOffset(x, Query);
            var g := OuterOffset(x, Fragment);
            || i < |x.schema|
            || (|x.schema| <= i < o && c in x.slashes)
            || (o <= i < p && c == x.authority[i - o])
            || p <= i < p + |x.path|
            || (p + |x.path| <= i < q && c in x.mark)
            || q <= i < q + |x.query|
            || (q + |x.query| <= i < g && c in x.hashes)
            || g <= i < g + |x.fragment|
  {
    if i < |x.schema| {}
    else if i < OuterOffset(x, Host) { assert Text(x)[i] == x.slashes[i - |x.schema|]; }
    else if i < OuterOffset(x, Path) { assert Text(x)[i] == x.authority[i - OuterOffset(x, Host)]; }
    else if i < OuterOffset(x, Path) + |x.path| {}
    else if i < OuterOffset(x, Query) { assert Text(x)[i] == x.mark[i - OuterOffset(x, Path) - |x.path|]; }
    else if i < OuterOffset(x, Query) + |x.query| {}
    else if i < OuterOffset(x, Fragment) { assert Text(x)[i] == x.hashes[i - OuterOffset(x, Query) - |x.query|]; }
    else {}
  }

  lemma InnerAt(a: Authority, i: nat)
    requires i < |HostText(a)|
    ensures var c := HostText(a)[i];
            var h := InnerOffset(a, Host);
            var n := |a.address| + |a.zone|;
            var p := InnerOffset(a, Port);
            || i < |a.userinfo|
            || (|a.userinfo| <= i < h && (c in a.at || c in a.open))
            || h <= i < h + n
            || (h + n <= i < p && (c in a.close || c in a.colon))
            || p <= i < p + |a.port|
  {
    var h, n := InnerOffset(a, Host), |a.address| + |a.zone|;
    if i < |a.userinfo| {}
    else if i < |a.userinfo| + |a.at| { assert HostText(a)[i] == a.at[i - |a.userinfo|]; }
    else if i < h { assert HostText(a)[i] == a.open[i - |a.userinfo| - |a.at|]; }
    else if i < h + n {}
    else if i < h + n + |a.close| { assert HostText(a)[i] == a.close[i - h - n]; }
    else if i < InnerOffset(a, Port) { assert HostText(a)[i] == a.colon[i - h - n - |a.close|]; }
    else {}
  }

  lemma PieceCovers(u: Url, q: Parts, f: Field, i: nat)
    requires Located(u, q) && Offset(q, f) <= i < Offset(q, f) + |Piece(q, f)|
    ensures Covered(u, i)
  {
    hide Offset, Piece;
    assert At(u, f, Piece(q, f), Offset(q, f));
    assert Holds(u, f, i);
  }

  lemma DelimiterText(q: Parts, connect: bool, c: char)
    requires Legal(q, connect)
    ensures var x, a := q.pieces, q.authority;
            c in x.slashes || c in x.mark || c in x.hashes || c in a.at || c in a.open || c in a.close || c in a.colon ==> Delimiter(c)
  {
    hide Text, HostText, Decimal, IsUrlChar, IsUserinfoChar, IsAlpha, Complete;
  }

  lemma AllCovered(u: Url, q: Parts, connect: bool, i: nat)
    requires Located(u, q) && Legal(q, connect) && i < |Text(q.pieces)|
    ensures Covered(u, i) || Delimiter(Text(q.pieces)[i])
  {
    hide Located, Covered, Text, HostText, Fits, HostFits, Whole, Delimiter;
    var x, a := q.pieces, q.authority;
    OuterAt(x, i);
    DelimiterText(q, connect, Text(x)[i]);
    var o := OuterOffset(x, Host);
    if o <= i < OuterOffset(x, Path) {
      InnerAt(a, i - o);
      if i - o < |a.userinfo| { PieceCovers(u, q, Userinfo, i); }
      else if InnerOffset(a, Host) <= i - o < InnerOffset(a, Host) + |InnerPiece(a, Host)| { PieceCovers(u, q, Host, i); }
      else if InnerOffset(a, Port) <= i - o { PieceCovers(u, q, Port, i); }
    } else if i < |x.schema| { PieceCovers(u, q, Schema, i); }
    else if OuterOffset(x, Path) <= i < OuterOffset(x, Path) + |x.path| { PieceCovers(u, q, Path, i); }
    else if OuterOffset(x, Query) <= i < OuterOffset(x, Query) + |x.query| { PieceCovers(u, q, Query, i); }
    else if OuterOffset(x, Fragment) <= i { PieceCovers(u, q, Fragment, i); }
  }

  lemma PiecesInOrder(u: Url, q: Parts)
    requires Located(u, q) && HostText(q.authority) == q.pieces.authority
    ensures InOrder(u, |Text(q.pieces)|)
  {
    forall f: Field | f in u.fields
      ensures Start(u, f) == Offset(q, f) && End(u, f) == Offset(q, f) + |Piece(q, f)| && Piece(q, f) != ""
    {
      assert At(u, f, Piece(q, f), Offset(q, f));
    }
    forall f: Field, g: Field
      ensures Offset(q, f) + |Piece(q, f)| <= |Text(q.pieces)|
      ensures Rank(f) < Rank(g) ==> Offset(q, f) + |Piece(q, f)| <= Offset(q, g)
    {
      PieceOrder(q, f, g);
    }
  }

  lemma PieceOrder(q: Parts, f: Field, g: Field)
    requires HostText(q.authority) == q.pieces.authority
    ensures Offset(q, f) + |Piece(q, f)| <= |Text(q.pieces)|
    ensures Rank(f) < Rank(g) ==> Offset(q, f) + |Piece(q, f)| <= Offset(q, g)
  {
    var x, a := q.pieces, q.authority;
    assert |HostText(a)| == |a.userinfo| + |a.at| + |a.open| + |a.address| + |a.zone| + |a.close| + |a.colon| + |a.port|;
    assert |Text(x)| == OuterOffset(x, Fragment) + |x.fragment|;
    hide HostText, Text;
    match f
    case Schema =>
    case Userinfo =>
    case Host =>
    case Port =>
    case Path =>
    case Query =>
    case Fragment =>
  }

  /** The fields of an accepted URL partition it. */
  lemma Partitioned(u: Url, q: Parts, connect: bool)
    requires Legal(q, connect) && Located(u, q) && u.port == Decimal(q.authority.port)
    ensures Partition(Text(q.pieces), u)
    ensures connect ==> u.fields == {Host, Port}
  {
    hide Located, InOrder, Covered, Delimiter, Text, HostText, Fits, HostFits, Digits, Decimal;
    var buf := Text(q.pieces);
    PiecesInOrder(u, q);
    forall i | 0 <= i < |buf|
      ensures Covered(u, i) || Delimiter(buf[i])
    {
      AllCovered(u, q, connect, i);
    }
    PortSpan(u, q);
    DecimalSnoc("", '0');
    if connect { ConnectFields(u, q); }
    assert Schema in u.fields ==> Host in u.fields by { SchemaHost(u, q, connect); }
    forall f, g, i: nat | Holds(u, f, i) && Holds(u, g, i)
      ensures f == g
    {
      Disjoint(u, |buf|, f, g, i);
    }
  }

  lemma SchemaHost(u: Url, q: Parts, connect: bool)
    requires Legal(q, connect) && Located(u, q)
    ensures Schema in u.fields ==> Host in u.fields
  {
    hide Text, HostText, Fits, HostFits, Digits, Decimal;
    assert At(u, Schema, Piece(q, Schema), Offset(q, Schema));
    assert At(u, Host, Piece(q, Host), Offset(q, Host));
  }
}
