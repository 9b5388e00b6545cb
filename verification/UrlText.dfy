/** `UrlParser`: splitting a URL text into protocol, host, port, path and key/value pairs. It
    accepts exactly the texts that printing such parts gives, and gives the parts back. */
module UrlText {
  import opened HttpTypes
  import opened Decimals

  // ---------------------------------------------------------------- C strings

  /** `strchr`, as an index; the length when there is none. */
  function IndexOf(s: string, c: char): (i: nat)
    ensures i <= |s| && c !in s[..i] && (i < |s| ==> s[i] == c)
  {
    if s == "" then 0
    else if s[0] == c then 0
    else
      assert forall x | x in s[..IndexOf(s[1..], c) + 1] :: x == s[0] || x in s[1..][..IndexOf(s[1..], c)];
      IndexOf(s[1..], c) + 1
  }

  predicate StartsWith(s: string, t: string) { |t| <= |s| && s[..|t|] == t }

  /** `strstr`, as an index; the length when there is none. */
  function Find(s: string, t: string): (i: nat)
    requires t != ""
    ensures i <= |s| && (i < |s| ==> StartsWith(s[i..], t)) && forall j | 0 <= j < i :: !StartsWith(s[j..], t)
  {
    if s == "" then 0
    else if StartsWith(s, t) then 0
    else
      var i := Find(s[1..], t);
      assert s[1..][i..] == s[i + 1..] && forall j | 0 < j < i + 1 :: s[j..] == s[1..][j - 1..];
      i + 1
  }

  /** What a C string function sees of a buffer. */
  function CString(s: string): string { s[..IndexOf(s, '\0')] }

  predicate IsSpace(c: char) { c in {' ', '\t', '\n', '\r'} || c as int == 11 || c as int == 12 }

  function LeadingDigits(s: string): (r: string)
    ensures forall c <- r :: IsNum(c)
  {
    if s != "" && IsNum(s[0]) then [s[0]] + LeadingDigits(s[1..]) else ""
  }

  /** `atoi`, for values that an int can hold. */
  function Atoi(s: string): int {
    if s == "" then 0
    else if IsSpace(s[0]) then Atoi(s[1..])
    else if s[0] == '-' then 0 - Decimal(LeadingDigits(s[1..]))
    else if s[0] == '+' then Decimal(LeadingDigits(s[1..]))
    else Decimal(LeadingDigits(s))
  }

  // ---------------------------------------------------------------- the splitting

  datatype Fields = Fields(protocol: string, host: string, uri: string, port: int, values: map<string, string>)

  datatype Split = Split(ret: int, fields: Fields)

  /** The key/value pairs of a query, entered in order. */
  function Pairs(q: string, f: Fields): Split
    decreases |q|
  {
    var i := IndexOf(q, '&');
    var kv := q[..i];
    var t := IndexOf(kv, '=');
    if t == |kv| then Split(if i == |q| then -4 else -5, f)
    else
      var g := f.(values := f.values[kv[..t] := kv[t + 1..]]);
      if i == |q| then Split(0, g) else Pairs(q[i + 1..], g)
  }

  /** From the slash after the authority. */
  function Path(s: string, f: Fields): Split
    requires s != "" && s[0] == '/'
  {
    var i := IndexOf(s, '?');
    if i == |s| then Split(0, f.(uri := s[1..]))
    else Pairs(s[i + 1..], f.(uri := s[1..i]))
  }

  function Authority(value: string, f: Fields): Fields {
    var i := IndexOf(value, ':');
    if i == |value| then f.(host := value) else f.(host := value[..i], port := Atoi(value[i + 1..]))
  }

  function SplitUrl(url: string, f: Fields): Split {
    var s := CString(url);
    var i := Find(s, "://");
    if i == |s| then Split(-1, f)
    else
      var g := f.(protocol := s[..i]);
      var rest := s[i + 3..];
      var j := IndexOf(rest, '/');
      if j == |rest| then
        (if |g.protocol| + 3 >= |url| then Split(-2, g) else Split(0, g.(host := rest)))
      else if j == 0 then Split(-3, g)
      else Path(rest[j..], Authority(rest[..j], g))
  }

  // ---------------------------------------------------------------- the parts of a URL

  datatype Pair = Pair(key: string, value: string)

  datatype Port = NoPort | PortText(text: string)

  /** What follows the authority. */
  datatype Tail = NoPath | Plain(uri: string) | Query(uri: string, pairs: seq<Pair>)

  datatype Parts = Parts(protocol: string, host: string, port: Port, tail: Tail)

  function PairsText(ps: seq<Pair>): string {
    if ps == [] then ""
    else ps[0].key + "=" + ps[0].value + (if |ps| == 1 then "" else "&" + PairsText(ps[1..]))
  }

  function AuthorityText(x: Parts): string {
    match x.port case NoPort => x.host case PortText(t) => x.host + ":" + t
  }

  function TailText(t: Tail): string {
    match t
    case NoPath => ""
    case Plain(uri) => "/" + uri
    case Query(uri, pairs) => "/" + uri + "?" + PairsText(pairs)
  }

  function Print(x: Parts): string { x.protocol + "://" + AuthorityText(x) + TailText(x.tail) }

  predicate Contains(s: string, t: string) { exists j :: 0 <= j <= |s| && StartsWith(s[j..], t) }

  predicate LegalPair(p: Pair) { '=' !in p.key && '&' !in p.key && '&' !in p.value }

  /** Each part is free of what delimits it. Without a path the port is not split off the host. */
  predicate Legal(x: Parts) {
    && !Contains(x.protocol, "://") && AuthorityText(x) != "" && '/' !in AuthorityText(x)
    && (x.tail.NoPath? || ':' !in x.host)
    && match x.tail
       case NoPath => x.port.NoPort?
       case Plain(uri) => '?' !in uri
       case Query(uri, pairs) => '?' !in uri && pairs != [] && forall p <- pairs :: LegalPair(p)
  }

  function Entered(m: map<string, string>, ps: seq<Pair>): map<string, string>
    decreases ps
  {
    if ps == [] then m else Entered(m[ps[0].key := ps[0].value], ps[1..])
  }

  /** What the parser holds after the URL with these parts. */
  function Result(x: Parts, f: Fields): Fields {
    var g := f.(protocol := x.protocol, host := x.host, port := if x.port.NoPort? then f.port else Atoi(x.port.text));
    match x.tail
    case NoPath => g
    case Plain(uri) => g.(uri := uri)
    case Query(uri, pairs) => g.(uri := uri, values := Entered(f.values, pairs))
  }

  // ---------------------------------------------------------------- what the parts become

  lemma {:induction false} AllDigits(s: string)
    requires forall c <- s :: IsNum(c)
    ensures LeadingDigits(s) == s
    decreases |s|
  {
    if s != "" {
      assert s[0] in s && forall c <- s[1..] :: c in s;
      AllDigits(s[1..]);
      assert s == [s[0]] + s[1..];
    }
  }

  /** The port of a printed number is the number. */
  lemma PortIsNumber(n: nat)
    ensures Atoi(Numeral(n)) == n && forall s | Digits(s) :: Atoi(s) == Decimal(s)
  {
    hide Decimal, Numeral, LeadingDigits;
    NumeralMeans(n);
    forall s | Digits(s)
      ensures Atoi(s) == Decimal(s)
    {
      AllDigits(s);
      assert s[0] in s;
    }
  }

  /** Of several pairs with the same key the last one counts; other entries stay. */
  lemma {:induction false} LastPairWins(m: map<string, string>, ps: seq<Pair>)
    ensures forall k <- m :: k in Entered(m, ps)
    ensures forall k <- Entered(m, ps) :: k in m || exists i :: 0 <= i < |ps| && ps[i].key == k
    ensures forall k <- m :: (forall i | 0 <= i < |ps| :: ps[i].key != k) ==> Entered(m, ps)[k] == m[k]
    ensures forall i | 0 <= i < |ps| ::
              ps[i].key in Entered(m, ps)
              && ((forall j | i < j < |ps| :: ps[j].key != ps[i].key) ==> Entered(m, ps)[ps[i].key] == ps[i].value)
    decreases |ps|
  {
    if ps != [] {
      var m1, rest := m[ps[0].key := ps[0].value], ps[1..];
      LastPairWins(m1, rest);
      assert forall i | 0 <= i < |rest| :: rest[i] == ps[i + 1];
      forall k <- m | forall i | 0 <= i < |ps| :: ps[i].key != k
        ensures k in Entered(m, ps) && Entered(m, ps)[k] == m[k]
      {
        assert ps[0].key != k && k in m1 && m1[k] == m[k];
      }
      forall i | 0 <= i < |ps|
        ensures ps[i].key in Entered(m, ps)
        ensures (forall j | i < j < |ps| :: ps[j].key != ps[i].key) ==> Entered(m, ps)[ps[i].key] == ps[i].value
      {
        if i == 0 { assert ps[0].key in m1; } else { assert rest[i - 1] == ps[i]; }
      }
      forall k <- Entered(m, ps)
        ensures k in m || exists i :: 0 <= i < |ps| && ps[i].key == k
      {
        if k !in m && k !in m1 { var i :| 0 <= i < |rest| && rest[i].key == k; assert ps[i + 1].key == k; }
        else if k !in m { assert ps[0].key == k; }
      }
    }
  }

  // ---------------------------------------------------------------- printing, then splitting

  lemma {:induction false} IndexIs(a: string, c: char, b: string)
    requires c !in a
    ensures IndexOf(a + [c] + b, c) == |a| && IndexOf(a, c) == |a|
    decreases |a|
  {
    if a != "" {
      assert (a + [c] + b)[1..] == a[1..] + [c] + b;
      IndexIs(a[1..], c, b);
    }
  }

  lemma {:induction false} FindIs(s: string, t: string, i: nat)
    requires t != "" && i <= |s| && StartsWith(s[i..], t) && forall j | 0 <= j < i :: !StartsWith(s[j..], t)
    ensures Find(s, t) == i
    decreases i
  {
    assert s[0..] == s;
    if i > 0 {
      assert !StartsWith(s[0..], t);
      assert s[1..][i - 1..] == s[i..];
      forall j | 0 <= j < i - 1
        ensures !StartsWith(s[1..][j..], t)
      {
        assert s[1..][j..] == s[j + 1..];
      }
      FindIs(s[1..], t, i - 1);
    }
  }

  lemma FindsProtocol(p: string, r: string)
    requires !Contains(p, "://")
    ensures Find(p + "://" + r, "://") == |p|
  {
    var s := p + "://" + r;
    assert s[|p|..] == "://" + r && ("://" + r)[..3] == "://";
    forall j | 0 <= j < |p|
      ensures !StartsWith(s[j..], "://")
    {
      if j + 3 <= |p| {
        assert !StartsWith(p[j..], "://");
        assert s[j..][..3] == p[j..][..3];
      } else {
        var w := s[j..][..3];
        assert s[|p|] == ':' && w[1] == s[j + 1] && w[2] == s[j + 2];
        assert w[|p| - j] == ':';
      }
    }
    FindIs(s, "://", |p|);
  }

  lemma {:induction false} PairsSplit(ps: seq<Pair>, f: Fields)
    requires ps != [] && forall p <- ps :: LegalPair(p)
    ensures Pairs(PairsText(ps), f) == Split(0, f.(values := Entered(f.values, ps)))
    decreases |ps|
  {
    hide IndexOf;
    var k, v := ps[0].key, ps[0].value;
    assert LegalPair(ps[0]);
    var kv := k + "=" + v;
    IndexIs(k, '=', v);
    var g := f.(values := f.values[k := v]);
    assert kv[..|k|] == k && kv[|k| + 1..] == v && |k| < |kv|;
    var q := PairsText(ps);
    if |ps| == 1 {
      assert q == kv + "" == kv;
      IndexIs(kv, '&', "");
      assert Entered(f.values, ps) == Entered(g.values, []);
    } else {
      var rest := PairsText(ps[1..]);
      assert q == kv + "&" + rest;
      IndexIs(kv, '&', rest);
      assert q[..|kv|] == kv && q[|kv| + 1..] == rest;
      PairsSplit(ps[1..], g);
    }
  }

  lemma AuthoritySplit(x: Parts, f: Fields)
    requires ':' !in x.host
    ensures Authority(AuthorityText(x), f) ==
            f.(host := x.host, port := if x.port.NoPort? then f.port else Atoi(x.port.text))
  {
    hide IndexOf, Atoi;
    match x.port
    case NoPort => IndexIs(x.host, ':', "");
    case PortText(t) =>
      IndexIs(x.host, ':', t);
      assert AuthorityText(x)[..|x.host|] == x.host && AuthorityText(x)[|x.host| + 1..] == t;
  }

  lemma PathSplit(t: Tail, f: Fields)
    requires match t case NoPath => false
                     case Plain(uri) => '?' !in uri
                     case Query(uri, pairs) => '?' !in uri && pairs != [] && forall p <- pairs :: LegalPair(p)
    ensures Path(TailText(t), f) ==
            Split(0, f.(uri := t.uri, values := if t.Query? then Entered(f.values, t.pairs) else f.values))
  {
    hide IndexOf, LegalPair, PairsText, Entered, Pairs;
    var a := "/" + t.uri;
    assert '?' !in a;
    match t
    case NoPath =>
    case Plain(uri) =>
      IndexIs(a, '?', "");
      assert a[1..] == uri;
    case Query(uri, pairs) =>
      var q := PairsText(pairs);
      IndexIs(a, '?', q);
      var s := TailText(t);
      assert s == a + ['?'] + q && s[1..|a|] == uri && s[|a| + 1..] == q;
      PairsSplit(pairs, f.(uri := uri));
  }

  lemma CStringIs(s: string)
    requires '\0' !in s
    ensures CString(s) == s
  {
    IndexIs(s, '\0', "");
  }

  lemma SplitFound(s: string, protocol: string, rest: string, f: Fields)
    requires CString(s) == s && s == protocol + "://" + rest && Find(s, "://") == |protocol|
    ensures var g, j := f.(protocol := protocol), IndexOf(rest, '/');
            SplitUrl(s, f) == if j == |rest| then (if rest == "" then Split(-2, g) else Split(0, g.(host := rest)))
                              else if j == 0 then Split(-3, g) else Path(rest[j..], Authority(rest[..j], g))
  {
    hide IndexOf, Find, Path, Authority, CString;
    assert |s| == |protocol| + 3 + |rest|;
    assert s[..|protocol|] == protocol && s[|protocol| + 3..] == rest;
  }

  lemma SplitAfter(protocol: string, rest: string, f: Fields)
    requires !Contains(protocol, "://") && '\0' !in protocol && '\0' !in rest
    ensures var s, g, j := protocol + "://" + rest, f.(protocol := protocol), IndexOf(rest, '/');
            SplitUrl(s, f) == if j == |rest| then (if rest == "" then Split(-2, g) else Split(0, g.(host := rest)))
                              else if j == 0 then Split(-3, g) else Path(rest[j..], Authority(rest[..j], g))
  {
    hide IndexOf, Find, Path, Authority, Contains, CString, SplitUrl;
    var s := protocol + "://" + rest;
    CStringIs(s);
    FindsProtocol(protocol, rest);
    SplitFound(s, protocol, rest, f);
  }

  /** Splitting inverts printing. */
  lemma SplitsPrinted(x: Parts, f: Fields)
    requires Legal(x) && '\0' !in Print(x)
    ensures SplitUrl(Print(x), f) == Split(0, Result(x, f))
  {
    hide IndexOf, Find, Contains, LegalPair, Entered, PairsText, Atoi, Authority, Path, SplitUrl;
    var rest := AuthorityText(x) + TailText(x.tail);
    assert Print(x) == x.protocol + "://" + rest;
    SplitAfter(x.protocol, rest, f);
    var a := AuthorityText(x);
    if x.tail.NoPath? {
      assert rest == a;
      IndexIs(a, '/', "");
    } else {
      var b := TailText(x.tail)[1..];
      assert TailText(x.tail) == "/" + b;
      assert rest == a + ['/'] + b;
      IndexIs(a, '/', b);
      assert rest[..|a|] == a && rest[|a|..] == TailText(x.tail);
      AuthoritySplit(x, f.(protocol := x.protocol));
      PathSplit(x.tail, Authority(a, f.(protocol := x.protocol)));
    }
  }

  // ---------------------------------------------------------------- which defect gives which code

  function Joined(ps: seq<string>): string { if ps == [] then "" else ps[0] + (if |ps| == 1 then "" else "&" + Joined(ps[1..])) }

  /** The first piece without an equals sign is at `k`; there is none if `k` is their number. */
  predicate FirstBad(ps: seq<string>, k: nat) { k <= |ps| && (forall i | 0 <= i < k :: '=' in ps[i]) && (k < |ps| ==> '=' !in ps[k]) }

  /** The pieces spell the pairs. */
  predicate SpellPairs(ps: seq<string>, pairs: seq<Pair>) {
    |pairs| == |ps| && forall i | 0 <= i < |ps| :: '=' !in pairs[i].key && ps[i] == pairs[i].key + "=" + pairs[i].value
  }

  lemma CutAt(kv: string, tail: string)
    requires '&' !in kv && (tail == "" || tail[0] == '&')
    ensures var q, i := kv + tail, |kv|;
            IndexOf(q, '&') == i && q[..i] == kv && if tail == "" then i == |q| else i < |q| && q[i + 1..] == tail[1..]
  {
    hide IndexOf;
    if tail == "" {
      assert kv + tail == kv;
      IndexIs(kv, '&', "");
    } else {
      assert kv + tail == kv + ['&'] + tail[1..];
      IndexIs(kv, '&', tail[1..]);
    }
  }

  /** The first piece of a query. */
  lemma PairsHead(kv: string, tail: string, f: Fields)
    requires '&' !in kv && (tail == "" || tail[0] == '&')
    ensures var t := IndexOf(kv, '=');
            Pairs(kv + tail, f) == if t == |kv| then Split(if tail == "" then -4 else -5, f)
                                   else
                                     var g := f.(values := f.values[kv[..t] := kv[t + 1..]]);
                                     if tail == "" then Split(0, g) else Pairs(tail[1..], g)
  {
    hide IndexOf;
    CutAt(kv, tail);
    var t := IndexOf(kv, '=');
    if t == |kv| {
    } else if tail == "" {
    } else {
      assert (kv + tail)[|kv| + 1..] == tail[1..];
    }
  }

  lemma {:induction false} PairsDefect(ps: seq<string>, k: nat, pairs: seq<Pair>, f: Fields)
    requires ps != [] && (forall p <- ps :: '&' !in p) && FirstBad(ps, k) && SpellPairs(ps[..k], pairs)
    ensures Pairs(Joined(ps), f)
         == Split(if k == |ps| then 0 else if k == |ps| - 1 then -4 else -5, f.(values := Entered(f.values, pairs)))
    decreases |ps|
  {
    hide IndexOf, Pairs;
    var kv, tail := ps[0], if |ps| == 1 then "" else "&" + Joined(ps[1..]);
    assert kv in ps;
    PairsHead(kv, tail, f);
    if k == 0 {
      IndexIs(kv, '=', "");
      assert pairs == [];
    } else {
      var p := pairs[0];
      assert ps[..k][0] == kv && kv == p.key + ['='] + p.value;
      IndexIs(p.key, '=', p.value);
      assert kv[..|p.key|] == p.key && kv[|p.key| + 1..] == p.value;
      if |ps| > 1 {
        assert tail[1..] == Joined(ps[1..]);
        RestBad(ps, k, pairs);
        PairsDefect(ps[1..], k - 1, pairs[1..], f.(values := f.values[p.key := p.value]));
      } else {
        assert pairs[1..] == [];
      }
    }
  }

  lemma RestBad(ps: seq<string>, k: nat, pairs: seq<Pair>)
    requires |ps| > 1 && (forall p <- ps :: '&' !in p) && FirstBad(ps, k) && SpellPairs(ps[..k], pairs) && k > 0
    ensures (forall p <- ps[1..] :: '&' !in p) && FirstBad(ps[1..], k - 1) && SpellPairs(ps[1..][..k - 1], pairs[1..])
  {
    assert forall x <- ps[1..] :: x in ps;
    assert ps[1..][..k - 1] == ps[..k][1..];
  }

  /** A text without `://`. */
  lemma NoProtocol(s: string, f: Fields)
    requires '\0' !in s
    ensures SplitUrl(s, f).ret == -1 <==> !Contains(s, "://")
    ensures SplitUrl(s, f).ret == -1 ==> SplitUrl(s, f).fields == f
  {
    hide Find, Path, Authority;
    IndexIs(s, '\0', "");
    assert CString(s) == s;
    FindSplits(s);
    var i := Find(s, "://");
    if i < |s| {
      assert StartsWith(s[i..], "://");
    } else {
      NotFound(s);
    }
    PathCodes();
  }

  lemma NotFound(s: string)
    requires Find(s, "://") == |s|
    ensures !Contains(s, "://")
  {
    forall j | 0 <= j <= |s|
      ensures !StartsWith(s[j..], "://")
    {}
  }

  lemma {:induction false} PairsCodes(q: string, f: Fields)
    ensures Pairs(q, f).ret in {0, -4, -5}
    decreases |q|
  {
    hide IndexOf;
    var i := IndexOf(q, '&');
    var kv := q[..i];
    var t := IndexOf(kv, '=');
    if t != |kv| && i != |q| { PairsCodes(q[i + 1..], f.(values := f.values[kv[..t] := kv[t + 1..]])); }
  }

  lemma PathCodes()
    ensures forall s, f | s != "" && s[0] == '/' :: Path(s, f).ret in {0, -4, -5}
  {
    hide Pairs, IndexOf;
    forall s, f | s != "" && s[0] == '/'
      ensures Path(s, f).ret in {0, -4, -5}
    {
      var i := IndexOf(s, '?');
      if i < |s| { PairsCodes(s[i + 1..], f.(uri := s[1..i])); }
    }
  }

  /** What follows `://` decides: nothing; a slash at once; a query with a piece that lacks its equals sign, the
      last one or an earlier one. What was read before the defect is kept. */
  lemma DefectCodes(protocol: string, rest: string, f: Fields)
    requires !Contains(protocol, "://") && '\0' !in protocol && '\0' !in rest
    ensures var r := SplitUrl(protocol + "://" + rest, f);
            && (r.ret == -2 <==> rest == "") && (r.ret == -3 <==> rest != "" && rest[0] == '/')
            && (r.ret in {-2, -3} ==> r.fields == f.(protocol := protocol))
  {
    hide Find, Path, Authority, Contains;
    SplitAfter(protocol, rest, f);
    PathCodes();
    if rest != "" && rest[0] == '/' { IndexIs("", '/', rest[1..]); assert "" + ['/'] + rest[1..] == rest; }
  }

  /** A query in which a piece lacks its equals sign. */
  lemma QueryDefect(protocol: string, x: Parts, uri: string, ps: seq<string>, k: nat, pairs: seq<Pair>, f: Fields)
    requires !Contains(protocol, "://") && AuthorityText(x) != "" && '/' !in AuthorityText(x) && ':' !in x.host && '?' !in uri
    requires ps != [] && (forall p <- ps :: '&' !in p) && FirstBad(ps, k) && SpellPairs(ps[..k], pairs)
    requires '\0' !in protocol && '\0' !in AuthorityText(x) && '\0' !in uri && '\0' !in Joined(ps)
    ensures SplitUrl(protocol + "://" + (AuthorityText(x) + ("/" + uri + "?" + Joined(ps))), f)
         == Split(if k == |ps| then 0 else if k == |ps| - 1 then -4 else -5,
                  Fields(protocol, x.host, uri, if x.port.NoPort? then f.port else Atoi(x.port.text), Entered(f.values, pairs)))
  {
    hide IndexOf, Find, Contains, Entered, Atoi, Authority, Joined, Pairs, FirstBad, SpellPairs;
    var a, q := AuthorityText(x), Joined(ps);
    var tail := "/" + uri + "?" + q;
    var rest := a + tail;
    SplitAfter(protocol, rest, f);
    assert tail == ['/'] + (uri + "?" + q) && rest == a + ['/'] + (uri + "?" + q);
    IndexIs(a, '/', uri + "?" + q);
    assert rest[..|a|] == a && rest[|a|..] == tail;
    var g := f.(protocol := protocol);
    AuthoritySplit(x, g);
    var b := "/" + uri;
    assert '?' !in b && tail == b + ['?'] + q;
    IndexIs(b, '?', q);
    assert tail[1..|b|] == uri && tail[|b| + 1..] == q;
    PairsDefect(ps, k, pairs, Authority(a, g).(uri := uri));
  }

  // ---------------------------------------------------------------- splitting, then printing

  lemma IndexSplits(s: string, c: char)
    ensures var i := IndexOf(s, c); c !in s[..i] && (i == |s| ==> c !in s) && (i < |s| ==> s == s[..i] + [c] + s[i + 1..])
  {
    var i := IndexOf(s, c);
    if i == |s| { assert s[..i] == s; }
  }

  lemma PrefixStarts(s: string, i: nat, j: nat)
    requires j <= i <= |s|
    ensures StartsWith(s[..i][j..], "://") ==> StartsWith(s[j..], "://")
  {
    if j + 3 <= i { assert s[..i][j..][..3] == s[j..][..3]; }
  }

  lemma FindSplits(s: string)
    ensures var i := Find(s, "://"); i < |s| ==> i + 3 <= |s| && s == s[..i] + "://" + s[i + 3..] && !Contains(s[..i], "://")
  {
    hide Find, StartsWith;
    var i := Find(s, "://");
    if i < |s| {
      Starts(s, i);
      forall j | 0 <= j <= i
        ensures !StartsWith(s[..i][j..], "://")
      {
        PrefixStarts(s, i, j);
        if j == i { ShortStarts(s[..i][j..]); }
      }
    }
  }

  lemma ShortStarts(s: string)
    requires s == ""
    ensures !StartsWith(s, "://")
  {}

  lemma Starts(s: string, i: nat)
    requires i <= |s| && StartsWith(s[i..], "://")
    ensures i + 3 <= |s| && s == s[..i] + "://" + s[i + 3..]
  {
    assert s[i..i + 3] == s[i..][..3];
  }

  lemma SplitLegal(kv: string, t: nat)
    requires '&' !in kv && t < |kv| && '=' !in kv[..t] && kv == kv[..t] + ['='] + kv[t + 1..]
    ensures var p := Pair(kv[..t], kv[t + 1..]); LegalPair(p) && p.key + "=" + p.value == kv
  {
    assert forall c | c in kv[..t] || c in kv[t + 1..] :: c in kv;
  }

  lemma PairsCases(q: string, f: Fields)
    requires Pairs(q, f).ret == 0
    ensures var i := IndexOf(q, '&');
            var kv := q[..i];
            var t := IndexOf(kv, '=');
            t < |kv| && (i < |q| ==> Pairs(q[i + 1..], f.(values := f.values[kv[..t] := kv[t + 1..]])).ret == 0)
  {
    hide IndexOf;
  }

  lemma TextMore(p: Pair, ps: seq<Pair>)
    requires LegalPair(p) && forall x <- ps :: LegalPair(x)
    ensures forall x <- [p] + ps :: LegalPair(x)
    ensures PairsText([p] + ps) == p.key + "=" + p.value + if ps == [] then "" else "&" + PairsText(ps)
  {
    hide LegalPair;
    assert ([p] + ps)[1..] == ps;
  }

  lemma {:induction false} PairsPrinted(q: string, f: Fields) returns (ps: seq<Pair>)
    requires Pairs(q, f).ret == 0
    ensures ps != [] && (forall p <- ps :: LegalPair(p)) && PairsText(ps) == q
    decreases |q|
  {
    hide IndexOf, LegalPair, Pairs, PairsText;
    PairsCases(q, f);
    var i := IndexOf(q, '&');
    IndexSplits(q, '&');
    var kv := q[..i];
    var t := IndexOf(kv, '=');
    IndexSplits(kv, '=');
    var p := Pair(kv[..t], kv[t + 1..]);
    SplitLegal(kv, t);
    if i == |q| {
      TextMore(p, []);
      ps := [p] + [];
      assert q == kv + "";
    } else {
      var rest := PairsPrinted(q[i + 1..], f.(values := f.values[p.key := p.value]));
      TextMore(p, rest);
      ps := [p] + rest;
      assert q == kv + ("&" + q[i + 1..]);
    }
  }

  /** The part before the path is printed by a host and a port. */
  function PartsOf(value: string): (string, Port) {
    var i := IndexOf(value, ':');
    if i == |value| then (value, NoPort) else (value[..i], PortText(value[i + 1..]))
  }

  lemma AuthorityPrinted(value: string)
    ensures var (h, p) := PartsOf(value); ':' !in h && AuthorityText(Parts("", h, p, NoPath)) == value
  {
    IndexSplits(value, ':');
  }

  lemma TailPrinted(t: string, f: Fields) returns (x: Tail)
    requires t != "" && t[0] == '/' && Path(t, f).ret == 0
    ensures !x.NoPath? && TailText(x) == t && '?' !in x.uri
    ensures x.Query? ==> x.pairs != [] && forall p <- x.pairs :: LegalPair(p)
  {
    hide IndexOf, LegalPair, PairsText, Pairs;
    IndexSplits(t, '?');
    var k := IndexOf(t, '?');
    assert t == "/" + t[1..];
    if k == |t| {
      x := Plain(t[1..]);
    } else {
      var ps := PairsPrinted(t[k + 1..], f.(uri := t[1..k]));
      x := Query(t[1..k], ps);
      assert t[..k] == "/" + t[1..k];
      assert forall c | c in t[1..k] :: c in t[..k];
    }
  }

  /** Every text that is accepted is the text of some parts. */
  lemma AcceptedIsPrinted(s: string, f: Fields) returns (x: Parts)
    requires '\0' !in s && SplitUrl(s, f).ret == 0
    ensures Legal(x) && Print(x) == s
  {
    hide IndexOf, Find, Contains, LegalPair, TailText, Path, Authority;
    IndexIs(s, '\0', "");
    assert CString(s) == s;
    FindSplits(s);
    var i := Find(s, "://");
    var rest := s[i + 3..];
    IndexSplits(rest, '/');
    var j := IndexOf(rest, '/');
    if j == |rest| {
      x := Parts(s[..i], rest, NoPort, NoPath);
      assert rest + "" == rest;
      assert TailText(NoPath) == "" by { NoPathText(); }
    } else {
      AuthorityPrinted(rest[..j]);
      var (h, p) := PartsOf(rest[..j]);
      var t := TailPrinted(rest[j..], Authority(rest[..j], f.(protocol := s[..i])));
      x := Parts(s[..i], h, p, t);
      assert AuthorityText(x) == rest[..j];
      assert rest == rest[..j] + rest[j..];
    }
  }

  lemma NoPathText()
    ensures TailText(NoPath) == ""
  {}

  /** A text without NUL is accepted if and only if it is the text of some legal parts, and then the
      result is those parts. */
  lemma AcceptedExactly(s: string, f: Fields)
    requires '\0' !in s
    ensures SplitUrl(s, f).ret == 0 <==> exists x :: Legal(x) && Print(x) == s
    ensures forall x | Legal(x) && Print(x) == s :: SplitUrl(s, f) == Split(0, Result(x, f))
  {
    hide SplitUrl, Legal, Print, Result;
    if SplitUrl(s, f).ret == 0 {
      var x := AcceptedIsPrinted(s, f);
      assert Legal(x) && Print(x) == s;
    }
    forall x | Legal(x) && Print(x) == s
      ensures SplitUrl(s, f) == Split(0, Result(x, f))
    {
      SplitsPrinted(x, f);
    }
  }

  // ---------------------------------------------------------------- the object

  class UrlParser {
    var url: string
    var protocol: string
    var host: string
    var uri: string
    var port: int
    var values: map<string, string>

    function Holds(): Fields
      reads this
    {
      Fields(protocol, host, uri, port, values)
    }

    /** The port is not set by the constructor. */
    constructor (u: string)
      ensures url == u && Holds() == Fields("", "", "", port, map[])
    {
      url, protocol, host, uri, values := u, "", "", "", map[];
      port := *;
    }

    /** The path of an earlier URL is kept. */
    method SetUrl(u: string)
      modifies this
      ensures url == u && Holds() == Fields("", "", old(uri), 80, map[])
    {
      url, protocol, host, port, values := u, "", "", 80, map[];
    }

    /** `operator[]`. */
    method Get(name: string) returns (value: string)
      ensures value == if name in values then values[name] else ""
    {
      if name !in values { return ""; }
      return values[name];
    }

    /** The loop over the key/value pairs from `start` on. */
    method ParsePairs(text: string, start: nat) returns (ret: int)
      requires start <= |text|
      modifies this`values
      ensures Pairs(text[start..], old(Holds())) == Split(ret, Holds())
    {
      hide IndexOf;
      var pos, more := start, true;
      while more
        invariant start <= pos <= |text|
        invariant if more then Pairs(text[start..], old(Holds())) == Pairs(text[pos..], Holds())
                  else Pairs(text[start..], old(Holds())) == Split(0, Holds())
        invariant unchanged(`protocol, `host, `uri, `port)
        decreases more, |text| - pos
      {
        var rest := text[pos..];
        var target := IndexOf(rest, '&');
        var kv := rest[..target];
        var t := IndexOf(kv, '=');
        if target == |rest| {
          if t == |kv| { return -4; }
          values := values[kv[..t] := kv[t + 1..]];
          more := false;
        } else {
          if t == |kv| { return -5; }
          values := values[kv[..t] := kv[t + 1..]];
          assert rest[target + 1..] == text[pos + target + 1..];
          pos := pos + target + 1;
        }
      }
      return 0;
    }

    method Parse() returns (ret: int)
      modifies this`protocol, this`host, this`uri, this`port, this`values
      ensures SplitUrl(url, old(Holds())) == Split(ret, Holds())
    {
      hide IndexOf, Find, Pairs, Atoi;
      var text := CString(url);
      var i := Find(text, "://");
      if i == |text| { return -1; }
      protocol := text[..i];
      var rest := text[i + 3..];
      var j := IndexOf(rest, '/');
      if j == |rest| {
        if |protocol| + 3 >= |url| { return -2; }
        host := rest;
        return 0;
      }
      var value := rest[..j];
      if value == "" { return -3; }
      var k := IndexOf(value, ':');
      if k != |value| {
        host := value[..k];
        port := Atoi(value[k + 1..]);
      } else {
        host := value;
      }
      var path := rest[j..];
      var q := IndexOf(path, '?');
      if q == |path| {
        uri := path[1..];
        return 0;
      }
      uri := path[1..q];
      ret := ParsePairs(path, q + 1);
    }
  }
}
