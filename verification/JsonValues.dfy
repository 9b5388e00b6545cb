/** `Json::Value` as a tree, and its ordering. An object is its members in the order of the map
    that holds them; arrays are dense. */
module JsonValues {
  import opened Numbers

  const MIN_INT := -0x8000_0000_0000_0000
  const MAX_INT := 0x7FFF_FFFF_FFFF_FFFF
  const MAX_UINT := 0xFFFF_FFFF_FFFF_FFFF

  type Int64 = i: int | -0x8000_0000_0000_0000 <= i <= 0x7FFF_FFFF_FFFF_FFFF
  type UInt64 = u: int | 0 <= u <= 0xFFFF_FFFF_FFFF_FFFF

  /** A double is known by its bits; no arithmetic on doubles is modelled. */
  datatype Double = Double(bits: nat)

  datatype Value =
    | Null
    | Int(i: Int64)
    | UInt(u: UInt64)
    | Real(d: Double)
    | Str(s: string)
    | Bool(b: bool)
    | Arr(items: seq<Value>)
    | Obj(members: seq<Member>)

  datatype Member = Member(key: string, value: Value)

  /** `Value::type`, in the order of the enumeration. */
  function Type(v: Value): nat {
    match v
    case Null => 0 case Int(_) => 1 case UInt(_) => 2 case Real(_) => 3 case Str(_) => 4 case Bool(_) => 5 case Arr(_) => 6 case Obj(_) => 7
  }

  // ---------------------------------------------------------------- strings

  /** `memcmp` on equally long pieces: negative, zero or positive. */
  function MemCmp(a: string, b: string): int
    requires |a| == |b|
  {
    if a == "" then 0 else if a[0] < b[0] then -1 else if a[0] > b[0] then 1 else MemCmp(a[1..], b[1..])
  }

  /** Strings, and `CZString` keys: by the common part, then by length. */
  predicate TextLess(a: string, b: string) {
    var n := Min(|a|, |b|);
    var c := MemCmp(a[..n], b[..n]);
    c < 0 || (c == 0 && |a| < |b|)
  }

  predicate TextEqual(a: string, b: string) { |a| == |b| && MemCmp(a, b) == 0 }

  lemma TextLessStep(a: string, b: string)
    ensures TextLess(a, b) <==> b != "" && (a == "" || a[0] < b[0] || (a[0] == b[0] && TextLess(a[1..], b[1..])))
  {
    var n := Min(|a|, |b|);
    if n > 0 { assert a[..n][1..] == a[1..][..n - 1] && b[..n][1..] == b[1..][..n - 1]; }
  }

  lemma {:induction false} TextEqualIs(a: string, b: string)
    ensures TextEqual(a, b) <==> a == b
    decreases |a|
  {
    if a != "" && b != "" && |a| == |b| {
      TextEqualIs(a[1..], b[1..]);
      if a[0] == b[0] {
        assert a == [a[0]] + a[1..] && b == [b[0]] + b[1..];
      }
    }
  }

  lemma {:induction false} TextTotal(a: string, b: string)
    ensures TextLess(a, b) || a == b || TextLess(b, a)
    ensures !(TextLess(a, b) && TextLess(b, a)) && !(TextLess(a, b) && a == b)
    decreases |a|
  {
    hide TextLess;
    TextLessStep(a, b);
    TextLessStep(b, a);
    if a != "" && b != "" {
      TextTotal(a[1..], b[1..]);
      if a[0] == b[0] && a[1..] == b[1..] { assert a == [a[0]] + a[1..] && b == [b[0]] + b[1..]; }
    }
  }

  lemma {:induction false} TextTransitive(a: string, b: string, c: string)
    requires TextLess(a, b) && TextLess(b, c)
    ensures TextLess(a, c)
    decreases |a|
  {
    hide TextLess;
    TextLessStep(a, b);
    TextLessStep(b, c);
    TextLessStep(a, c);
    if a != "" && a[0] == b[0] == c[0] { TextTransitive(a[1..], b[1..], c[1..]); }
  }

  // ---------------------------------------------------------------- the ordering

  /** Number of nodes, for termination. */
  function Size(v: Value): (n: nat)
    ensures n > 0
  {
    match v
    case Arr(a) => 1 + ItemsSize(a)
    case Obj(a) => 1 + MembersSize(a)
    case _ => 1
  }

  function ItemsSize(a: seq<Value>): nat { if a == [] then 0 else 1 + Size(a[0]) + ItemsSize(a[1..]) }

  function MembersSize(a: seq<Member>): nat { if a == [] then 0 else 2 + Size(a[0].value) + MembersSize(a[1..]) }

  /** `Value::operator<`; on doubles it is not modelled. */
  predicate Less(v: Value, w: Value)
    decreases Size(v) + Size(w)
  {
    if Type(v) != Type(w) then Type(v) < Type(w)
    else match v
      case Null => false
      case Int(i) => i < w.i
      case UInt(u) => u < w.u
      case Real(_) => false
      case Bool(b) => !b && w.b
      case Str(s) => TextLess(s, w.s)
      case Arr(a) => if |a| != |w.items| then |a| < |w.items| else ItemsLess(a, w.items)
      case Obj(a) => if |a| != |w.members| then |a| < |w.members| else MembersLess(a, w.members)
  }

  /** `std::map::operator<` on equally large arrays. */
  predicate ItemsLess(a: seq<Value>, b: seq<Value>)
    requires |a| == |b|
    decreases ItemsSize(a) + ItemsSize(b)
  {
    a != [] && (Less(a[0], b[0]) || (!Less(b[0], a[0]) && ItemsLess(a[1..], b[1..])))
  }

  /** `std::map::operator<` on equally large objects: keys first, then values. */
  predicate MembersLess(a: seq<Member>, b: seq<Member>)
    requires |a| == |b|
    decreases MembersSize(a) + MembersSize(b)
  {
    a != [] &&
    (MemberLess(a[0], b[0]) || (!MemberLess(b[0], a[0]) && MembersLess(a[1..], b[1..])))
  }

  predicate MemberLess(m: Member, n: Member)
    decreases Size(m.value) + Size(n.value) + 1
  {
    TextLess(m.key, n.key) || (!TextLess(n.key, m.key) && Less(m.value, n.value))
  }

  /** `Value::operator==`. */
  predicate Equal(v: Value, w: Value) {
    Type(v) == Type(w) &&
    match v
    case Null => true
    case Int(i) => i == w.i
    case UInt(u) => u == w.u
    case Real(_) => false
    case Bool(b) => b == w.b
    case Str(s) => TextEqual(s, w.s)
    case Arr(a) => |a| == |w.items| && ItemsEqual(a, w.items)
    case Obj(a) => |a| == |w.members| && MembersEqual(a, w.members)
  }

  predicate ItemsEqual(a: seq<Value>, b: seq<Value>)
    requires |a| == |b|
  {
    a == [] || (Equal(a[0], b[0]) && ItemsEqual(a[1..], b[1..]))
  }

  predicate MembersEqual(a: seq<Member>, b: seq<Member>)
    requires |a| == |b|
  {
    a == [] || (TextEqual(a[0].key, b[0].key) && Equal(a[0].value, b[0].value) && MembersEqual(a[1..], b[1..]))
  }

  /** `Value::compare`. */
  function Compare(v: Value, w: Value): int {
    if Less(v, w) then -1 else if Less(w, v) then 1 else 0
  }

  // ---------------------------------------------------------------- a strict total order

  /** No doubles, whose comparison is that of the machine. */
  predicate RealFree(v: Value) {
    match v
    case Real(_) => false
    case Arr(a) => AllRealFree(a)
    case Obj(a) => MembersRealFree(a)
    case _ => true
  }

  predicate AllRealFree(a: seq<Value>) { a == [] || (RealFree(a[0]) && AllRealFree(a[1..])) }

  predicate MembersRealFree(a: seq<Member>) { a == [] || (RealFree(a[0].value) && MembersRealFree(a[1..])) }

  lemma {:induction false} EqualIs(v: Value, w: Value)
    requires RealFree(v) && RealFree(w)
    ensures Equal(v, w) <==> v == w
    decreases Size(v) + Size(w)
  {
    hide TextEqual;
    if Type(v) == Type(w) {
      match v
      case Str(s) => TextEqualIs(s, w.s);
      case Arr(a) => if |a| == |w.items| { ItemsEqualIs(a, w.items); }
      case Obj(a) => if |a| == |w.members| { MembersEqualIs(a, w.members); }
      case _ =>
    }
  }

  lemma {:induction false} ItemsEqualIs(a: seq<Value>, b: seq<Value>)
    requires |a| == |b| && AllRealFree(a) && AllRealFree(b)
    ensures ItemsEqual(a, b) <==> a == b
    decreases ItemsSize(a) + ItemsSize(b)
  {
    if a != [] {
      EqualIs(a[0], b[0]);
      ItemsEqualIs(a[1..], b[1..]);
      assert a == [a[0]] + a[1..] && b == [b[0]] + b[1..];
    }
  }

  lemma {:induction false} MembersEqualIs(a: seq<Member>, b: seq<Member>)
    requires |a| == |b| && MembersRealFree(a) && MembersRealFree(b)
    ensures MembersEqual(a, b) <==> a == b
    decreases MembersSize(a) + MembersSize(b)
  {
    hide TextEqual;
    if a != [] {
      TextEqualIs(a[0].key, b[0].key);
      EqualIs(a[0].value, b[0].value);
      MembersEqualIs(a[1..], b[1..]);
      assert a == [a[0]] + a[1..] && b == [b[0]] + b[1..];
    }
  }

  /** Exactly one of `x`, `y` and `z`. */
  predicate One(x: bool, y: bool, z: bool) { (x || y || z) && !(x && y) && !(y && z) && !(x && z) }

  lemma {:induction false} LessTotal(v: Value, w: Value)
    requires RealFree(v) && RealFree(w)
    ensures One(Less(v, w), v == w, Less(w, v))
    decreases Size(v) + Size(w)
  {
    hide TextLess;
    if Type(v) == Type(w) {
      match v
      case Str(s) => TextTotal(s, w.s);
      case Arr(a) => if |a| == |w.items| { ItemsTotal(a, w.items); }
      case Obj(a) => if |a| == |w.members| { MembersTotal(a, w.members); }
      case _ =>
    }
  }

  lemma {:induction false} ItemsTotal(a: seq<Value>, b: seq<Value>)
    requires |a| == |b| && AllRealFree(a) && AllRealFree(b)
    ensures One(ItemsLess(a, b), a == b, ItemsLess(b, a))
    decreases ItemsSize(a) + ItemsSize(b)
  {
    hide Less;
    if a != [] {
      LessTotal(a[0], b[0]);
      ItemsTotal(a[1..], b[1..]);
      assert a == [a[0]] + a[1..] && b == [b[0]] + b[1..];
    }
  }

  lemma MemberTotal(m: Member, n: Member)
    requires RealFree(m.value) && RealFree(n.value)
    ensures One(MemberLess(m, n), m == n, MemberLess(n, m))
    decreases Size(m.value) + Size(n.value) + 1
  {
    hide TextLess, Less;
    TextTotal(m.key, n.key);
    LessTotal(m.value, n.value);
  }

  lemma {:induction false} MembersTotal(a: seq<Member>, b: seq<Member>)
    requires |a| == |b| && MembersRealFree(a) && MembersRealFree(b)
    ensures One(MembersLess(a, b), a == b, MembersLess(b, a))
    decreases MembersSize(a) + MembersSize(b)
  {
    hide MemberLess;
    if a != [] {
      MemberTotal(a[0], b[0]);
      MembersTotal(a[1..], b[1..]);
      assert a == [a[0]] + a[1..] && b == [b[0]] + b[1..];
    }
  }

  lemma {:induction false} LessTransitive(u: Value, v: Value, w: Value)
    requires RealFree(u) && RealFree(v) && RealFree(w) && Less(u, v) && Less(v, w)
    ensures Less(u, w)
    decreases Size(u) + Size(v) + Size(w)
  {
    hide TextLess;
    if Type(u) == Type(v) == Type(w) {
      match u
      case Str(s) => TextTransitive(s, v.s, w.s);
      case Arr(a) => if |a| == |v.items| == |w.items| { ItemsTransitive(a, v.items, w.items); }
      case Obj(a) => if |a| == |v.members| == |w.members| { MembersTransitive(a, v.members, w.members); }
      case _ =>
    }
  }

  lemma {:induction false} ItemsTransitive(a: seq<Value>, b: seq<Value>, c: seq<Value>)
    requires |a| == |b| == |c| && AllRealFree(a) && AllRealFree(b) && AllRealFree(c)
    requires ItemsLess(a, b) && ItemsLess(b, c)
    ensures ItemsLess(a, c)
    decreases ItemsSize(a) + ItemsSize(b) + ItemsSize(c)
  {
    hide Less;
    LessTotal(a[0], b[0]);
    LessTotal(b[0], c[0]);
    LessTotal(a[0], c[0]);
    if Less(a[0], b[0]) && Less(b[0], c[0]) {
      LessTransitive(a[0], b[0], c[0]);
    } else if !Less(a[0], b[0]) && !Less(b[0], c[0]) {
      ItemsTransitive(a[1..], b[1..], c[1..]);
    }
  }

  lemma MemberTransitive(l: Member, m: Member, n: Member)
    requires RealFree(l.value) && RealFree(m.value) && RealFree(n.value) && MemberLess(l, m) && MemberLess(m, n)
    ensures MemberLess(l, n)
    decreases Size(l.value) + Size(m.value) + Size(n.value) + 1
  {
    hide TextLess, Less;
    TextTotal(l.key, m.key);
    TextTotal(m.key, n.key);
    TextTotal(l.key, n.key);
    if TextLess(l.key, m.key) && TextLess(m.key, n.key) { TextTransitive(l.key, m.key, n.key); }
    if l.key == m.key == n.key { LessTransitive(l.value, m.value, n.value); }
  }

  lemma {:induction false} MembersTransitive(a: seq<Member>, b: seq<Member>, c: seq<Member>)
    requires |a| == |b| == |c| && MembersRealFree(a) && MembersRealFree(b) && MembersRealFree(c)
    requires MembersLess(a, b) && MembersLess(b, c)
    ensures MembersLess(a, c)
    decreases MembersSize(a) + MembersSize(b) + MembersSize(c)
  {
    hide MemberLess;
    MemberTotal(a[0], b[0]);
    MemberTotal(b[0], c[0]);
    MemberTotal(a[0], c[0]);
    if MemberLess(a[0], b[0]) && MemberLess(b[0], c[0]) {
      MemberTransitive(a[0], b[0], c[0]);
    } else if !MemberLess(a[0], b[0]) && !MemberLess(b[0], c[0]) {
      MembersTransitive(a[1..], b[1..], c[1..]);
    }
  }

  /** `compare` is 0 exactly on equal values, and otherwise says which one is less. */
  lemma CompareDecides(v: Value, w: Value)
    requires RealFree(v) && RealFree(w)
    ensures Compare(v, w) == 0 <==> Equal(v, w)
    ensures Compare(v, w) < 0 <==> Less(v, w)
    ensures Compare(v, w) == 0 - Compare(w, v)
  {
    hide Less, Equal;
    EqualIs(v, w);
    LessTotal(v, w);
  }

  // ---------------------------------------------------------------- which order it is

  /** Kinds in the order of the enumeration. */
  predicate EarlierKind(v: Value, w: Value) {
    match v
    case Null => !w.Null?
    case Int(_) => !w.Null? && !w.Int?
    case UInt(_) => w.Real? || w.Str? || w.Bool? || w.Arr? || w.Obj?
    case Real(_) => w.Str? || w.Bool? || w.Arr? || w.Obj?
    case Str(_) => w.Bool? || w.Arr? || w.Obj?
    case Bool(_) => w.Arr? || w.Obj?
    case Arr(_) => w.Obj?
    case Obj(_) => false
  }

  /** `a` goes as `b` does up to `k`, and then ends or has the smaller byte. */
  predicate TextBefore(a: string, b: string, k: nat) { k <= |a| && k < |b| && a[..k] == b[..k] && (k == |a| || a[k] < b[k]) }

  /** The first difference is at `k`, and there the element of `a` is less. */
  predicate ItemBefore(a: seq<Value>, b: seq<Value>, k: nat) { k < |a| && k < |b| && a[..k] == b[..k] && Less(a[k], b[k]) }

  /** The same for members: by key, and only for equal keys by value. */
  ghost predicate MemberBefore(a: seq<Member>, b: seq<Member>, k: nat) {
    && k < |a| && k < |b| && a[..k] == b[..k]
    && ((exists i :: TextBefore(a[k].key, b[k].key, i)) || (a[k].key == b[k].key && Less(a[k].value, b[k].value)))
  }

  lemma {:induction false} TextLessIs(a: string, b: string)
    ensures TextLess(a, b) <==> exists k :: TextBefore(a, b, k)
    decreases |a|
  {
    hide TextLess;
    TextLessStep(a, b);
    if b != "" && (a == "" || a[0] < b[0]) {
      assert TextBefore(a, b, 0);
    } else if a != "" && b != "" && a[0] == b[0] {
      TextLessIs(a[1..], b[1..]);
      if k: nat :| TextBefore(a[1..], b[1..], k) { TextBeforeLonger(a, b, k); }
      if k: nat :| TextBefore(a, b, k) { TextBeforeShorter(a, b, k); }
    }
  }

  lemma TextBeforeLonger(a: string, b: string, k: nat)
    requires a != "" && b != "" && a[0] == b[0] && TextBefore(a[1..], b[1..], k)
    ensures TextBefore(a, b, k + 1)
  {
    assert a[..k + 1] == [a[0]] + a[1..][..k] && b[..k + 1] == [b[0]] + b[1..][..k];
  }

  lemma TextBeforeShorter(a: string, b: string, k: nat)
    requires a != "" && b != "" && a[0] == b[0] && TextBefore(a, b, k)
    ensures k > 0 && TextBefore(a[1..], b[1..], k - 1)
  {
    assert a[1..][..k - 1] == a[..k][1..] && b[1..][..k - 1] == b[..k][1..];
  }

  lemma {:induction false} ItemsLessIs(a: seq<Value>, b: seq<Value>)
    requires |a| == |b| && AllRealFree(a) && AllRealFree(b)
    ensures ItemsLess(a, b) <==> exists k :: ItemBefore(a, b, k)
    decreases |a|
  {
    hide Less;
    if a != [] {
      LessTotal(a[0], b[0]);
      if Less(a[0], b[0]) {
        assert ItemBefore(a, b, 0);
      } else if a[0] == b[0] {
        ItemsLessIs(a[1..], b[1..]);
        if k: nat :| ItemBefore(a[1..], b[1..], k) {
          assert a[..k + 1] == [a[0]] + a[1..][..k] && b[..k + 1] == [b[0]] + b[1..][..k];
          assert ItemBefore(a, b, k + 1);
        }
        if k: nat :| ItemBefore(a, b, k) {
          assert k > 0;
          assert a[1..][..k - 1] == a[..k][1..] && b[1..][..k - 1] == b[..k][1..];
          assert ItemBefore(a[1..], b[1..], k - 1);
        }
      } else {
        FirstDiffers(a, b);
      }
    }
  }

  lemma FirstDiffers(a: seq<Value>, b: seq<Value>)
    requires |a| == |b| > 0 && a[0] != b[0] && !Less(a[0], b[0])
    ensures forall k :: !ItemBefore(a, b, k)
  {
    hide Less;
    forall k: nat
      ensures !ItemBefore(a, b, k)
    {
      assert 0 < k <= |a| ==> a[..k][0] == a[0] && b[..k][0] == b[0];
    }
  }

  lemma MemberLessIs(m: Member, n: Member)
    requires RealFree(m.value) && RealFree(n.value)
    ensures MemberLess(m, n) <==> (exists i :: TextBefore(m.key, n.key, i)) || (m.key == n.key && Less(m.value, n.value))
  {
    hide TextLess, Less;
    TextLessIs(m.key, n.key);
    TextTotal(m.key, n.key);
  }

  lemma {:induction false} MembersLessIs(a: seq<Member>, b: seq<Member>)
    requires |a| == |b| && MembersRealFree(a) && MembersRealFree(b)
    ensures MembersLess(a, b) <==> exists k :: MemberBefore(a, b, k)
    decreases |a|
  {
    hide Less, MemberLess, TextBefore;
    if a != [] {
      MemberTotal(a[0], b[0]);
      MemberLessIs(a[0], b[0]);
      if MemberLess(a[0], b[0]) {
        assert MemberBefore(a, b, 0);
      } else if a[0] == b[0] {
        MembersLessIs(a[1..], b[1..]);
        if k: nat :| MemberBefore(a[1..], b[1..], k) {
          assert a[..k + 1] == [a[0]] + a[1..][..k] && b[..k + 1] == [b[0]] + b[1..][..k];
          assert MemberBefore(a, b, k + 1);
        }
        if k: nat :| MemberBefore(a, b, k) {
          assert k > 0;
          assert a[1..][..k - 1] == a[..k][1..] && b[1..][..k - 1] == b[..k][1..];
          assert MemberBefore(a[1..], b[1..], k - 1);
        }
      } else {
        forall k: nat
          ensures !MemberBefore(a, b, k)
        {
          assert 0 < k <= |a| ==> a[..k][0] == a[0] && b[..k][0] == b[0];
        }
      }
    }
  }

  /** By kind; numbers, and false before true, by value; text by the first difference; arrays and objects by
      size, and then by the first difference. */
  lemma LessIs(v: Value, w: Value)
    requires RealFree(v) && RealFree(w)
    ensures EarlierKind(v, w) ==> Less(v, w)
    ensures EarlierKind(w, v) ==> !Less(v, w)
    ensures v.Null? && w.Null? ==> !Less(v, w)
    ensures v.Int? && w.Int? ==> (Less(v, w) <==> v.i < w.i)
    ensures v.UInt? && w.UInt? ==> (Less(v, w) <==> v.u < w.u)
    ensures v.Bool? && w.Bool? ==> (Less(v, w) <==> v == Bool(false) && w == Bool(true))
    ensures v.Str? && w.Str? ==> (Less(v, w) <==> exists k :: TextBefore(v.s, w.s, k))
    ensures v.Arr? && w.Arr? ==>
              (Less(v, w) <==> |v.items| < |w.items| || (|v.items| == |w.items| && exists k :: ItemBefore(v.items, w.items, k)))
    ensures v.Obj? && w.Obj? ==>
              (Less(v, w) <==>
               |v.members| < |w.members| || (|v.members| == |w.members| && exists k :: MemberBefore(v.members, w.members, k)))
  {
    hide TextLess, TextBefore, ItemBefore, MemberBefore, ItemsLess, MembersLess;
    match v
    case Str(s) => if w.Str? { TextLessIs(s, w.s); }
    case Arr(a) => if w.Arr? && |a| == |w.items| { ItemsLessIs(a, w.items); }
    case Obj(a) => if w.Obj? && |a| == |w.members| { MembersLessIs(a, w.members); }
    case _ =>
  }

  // ---------------------------------------------------------------- the members of an object

  predicate Sorted(ms: seq<Member>) { forall i, j | 0 <= i < j < |ms| :: TextLess(ms[i].key, ms[j].key) }

  /** `lower_bound`: the first member whose key is not less than `key`. */
  function Slot(ms: seq<Member>, key: string): (i: nat)
    ensures i <= |ms| && (forall j | 0 <= j < i :: TextLess(ms[j].key, key)) && (i < |ms| ==> !TextLess(ms[i].key, key))
  {
    if ms == [] || !TextLess(ms[0].key, key) then 0 else Slot(ms[1..], key) + 1
  }

  predicate IsMember(ms: seq<Member>, key: string) {
    var i := Slot(ms, key); i < |ms| && TextEqual(ms[i].key, key)
  }

  /** The member with the key, null when there is none. */
  function Get(ms: seq<Member>, key: string): Value { if IsMember(ms, key) then ms[Slot(ms, key)].value else Null }

  /** The members with a value stored under a key. */
  function Put(ms: seq<Member>, key: string, value: Value): seq<Member> {
    var i := Slot(ms, key);
    if IsMember(ms, key) then ms[i := Member(key, value)] else ms[..i] + [Member(key, value)] + ms[i..]
  }

  lemma PutSorted(ms: seq<Member>, key: string, value: Value)
    requires Sorted(ms)
    ensures Sorted(Put(ms, key, value))
  {
    hide TextLess, TextEqual;
    var i := Slot(ms, key);
    if IsMember(ms, key) {
      TextEqualIs(ms[i].key, key);
    } else if i < |ms| {
      TextTotal(ms[i].key, key);
      TextEqualIs(ms[i].key, key);
      forall j | i < j < |ms|
        ensures TextLess(key, ms[j].key)
      {
        TextTransitive(key, ms[i].key, ms[j].key);
      }
    }
  }

  /** A key beyond all others goes to the end. */
  lemma {:induction false} SlotAtEnd(ms: seq<Member>, key: string)
    requires forall j | 0 <= j < |ms| :: TextLess(ms[j].key, key)
    ensures Slot(ms, key) == |ms|
    decreases |ms|
  {
    hide TextLess;
    if ms != [] { SlotAtEnd(ms[1..], key); }
  }

  lemma PutAtEnd(ms: seq<Member>, key: string, value: Value)
    requires forall j | 0 <= j < |ms| :: TextLess(ms[j].key, key)
    ensures Put(ms, key, value) == ms + [Member(key, value)] && !IsMember(ms, key)
  {
    hide TextLess, TextEqual;
    SlotAtEnd(ms, key);
  }

  predicate HasKey(ms: seq<Member>, key: string) { exists i :: 0 <= i < |ms| && ms[i].key == key }

  lemma MemberHasKey(ms: seq<Member>, key: string)
    requires Sorted(ms)
    ensures IsMember(ms, key) <==> HasKey(ms, key)
  {
    hide TextLess, TextEqual;
    var i := Slot(ms, key);
    if i < |ms| { TextEqualIs(ms[i].key, key); }
    if HasKey(ms, key) {
      var k :| 0 <= k < |ms| && ms[k].key == key;
      TextTotal(key, key);
    }
  }

  /** What was put is found under its key, and everything else where it was. */
  lemma PutGet(ms: seq<Member>, key: string, value: Value, other: string)
    requires Sorted(ms)
    ensures var r := Put(ms, key, value);
            && IsMember(r, key) && Get(r, key) == value
            && (other != key ==> IsMember(r, other) == IsMember(ms, other) && Get(r, other) == Get(ms, other))
  {
    hide TextLess, TextEqual, Put, IsMember;
    PutSorted(ms, key, value);
    var r := Put(ms, key, value);
    PutHolds(ms, key, value, other);
    MemberHasKey(r, key);
    MemberHasKey(r, other);
    MemberHasKey(ms, other);
    GetHolds(r, key);
    GetHolds(r, other);
    GetHolds(ms, other);
    SortedUnique(r, key);
    SortedUnique(r, other);
    if HasKey(ms, other) && other != key { var i :| 0 <= i < |ms| && ms[i].key == other; assert ms[i] in ms; }
  }

  lemma PutHolds(ms: seq<Member>, key: string, value: Value, other: string)
    ensures var r := Put(ms, key, value);
            && Member(key, value) in r
            && forall m: Member | m.key == other != key :: m in r <==> m in ms
  {
    hide TextLess, TextEqual;
    var i := Slot(ms, key);
    if IsMember(ms, key) {
      MemberSlot(ms, key);
      Replaced(ms, i, Member(key, value));
    } else {
      assert ms == ms[..i] + ms[i..];
    }
  }

  lemma Replaced(ms: seq<Member>, i: nat, x: Member)
    requires i < |ms| && ms[i].key == x.key
    ensures x in ms[i := x] && forall m: Member | m.key != x.key :: m in ms[i := x] <==> m in ms
  {
    var r := ms[i := x];
    assert r[i] == x;
    forall m: Member | m.key != x.key
      ensures m in r <==> m in ms
    {
      if m in ms { var k :| 0 <= k < |ms| && ms[k] == m; assert r[k] == m; }
      if m in r { var k :| 0 <= k < |r| && r[k] == m; assert ms[k] == m; }
    }
  }

  lemma MemberSlot(ms: seq<Member>, key: string)
    requires IsMember(ms, key)
    ensures ms[Slot(ms, key)].key == key
  {
    TextEqualIs(ms[Slot(ms, key)].key, key);
  }

  lemma GetHolds(ms: seq<Member>, key: string)
    ensures IsMember(ms, key) ==> Member(key, Get(ms, key)) in ms
    ensures !IsMember(ms, key) ==> Get(ms, key) == Null
  {
    if IsMember(ms, key) {
      MemberSlot(ms, key);
      assert ms[Slot(ms, key)] == Member(key, Get(ms, key));
    }
  }

  lemma SortedUnique(ms: seq<Member>, key: string)
    requires Sorted(ms)
    ensures forall m, n | m in ms && n in ms && m.key == n.key == key :: m == n
  {
    hide TextLess;
    TextTotal(key, key);
    forall m, n | m in ms && n in ms && m.key == n.key == key
      ensures m == n
    {
      var i :| 0 <= i < |ms| && ms[i] == m;
      var j :| 0 <= j < |ms| && ms[j] == n;
    }
  }
}
