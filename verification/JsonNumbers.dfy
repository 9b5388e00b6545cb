/** Integer text: `uintToString` and `valueToString`, which write into a fixed buffer from its end,
    and the integer part of `OurReader::decodeNumber`, which undoes them. */
module JsonNumbers {
  import opened HttpTypes
  import opened Options
  import opened Decimals
  import opened JsonValues

  // ---------------------------------------------------------------- writing

  /** `uintToStringBufferSize`. */
  const BUFFER_SIZE := 25

  /** The digits before `current`, NUL-terminated; returns where they start. */
  method UintToString(value: nat, buffer: array<char>, current: nat) returns (start: nat)
    requires value <= MAX_UINT && 21 <= current <= buffer.Length
    modifies buffer
    ensures start < current - 1 && start + 21 >= current
    ensures buffer[start..current - 1] == Numeral(value) && buffer[current - 1] == '\0'
    ensures buffer[..start] == old(buffer[..start]) && buffer[current..] == old(buffer[current..])
  {
    hide Numeral;
    NumeralFits(value);
    start := current - 1;
    buffer[start] := '\0';
    var v, more := value, true;
    while more
      invariant start < current && start + 21 >= current + if more then |Numeral(v)| else 0
      invariant buffer[current - 1] == '\0'
      invariant Numeral(value) == (if more then Numeral(v) else "") + buffer[start..current - 1]
      invariant buffer[..start] == old(buffer[..start]) && buffer[current..] == old(buffer[current..])
      decreases more, v
    {
      NumeralStep(v);
      start := start - 1;
      ghost var done := buffer[start + 1..current - 1];
      buffer[start] := '0' + (v % 10) as char;
      assert buffer[start..current - 1] == [DigitChar(v % 10)] + done;
      assert buffer[..start] == old(buffer[..start + 1])[..start];
      v := v / 10;
      more := v != 0;
    }
  }

  lemma NumeralStep(v: nat)
    ensures Numeral(v) == (if v < 10 then "" else Numeral(v / 10)) + [DigitChar(v % 10)]
  {}

  /** The text of an integer. */
  function IntText(i: int): (s: string)
    ensures s != ""
  {
    if i < 0 then "-" + Numeral(-i) else Numeral(i)
  }

  /** The C string that starts in a buffer. */
  method TextFrom(buffer: array<char>, start: nat, ghost text: string) returns (s: string)
    requires start + |text| < buffer.Length && buffer[start..start + |text|] == text
    requires buffer[start + |text|] == '\0' && '\0' !in text
    ensures s == text
  {
    var i := start;
    assert forall j | 0 <= j < |text| :: text[j] == buffer[start..start + |text|][j] == buffer[start + j] && text[j] in text;
    while buffer[i] != '\0'
      invariant start <= i <= start + |text|
      decreases start + |text| - i
    {
      assert i < start + |text|;
      i := i + 1;
    }
    return buffer[start..i];
  }

  lemma NumeralNoNul(n: nat)
    ensures '\0' !in Numeral(n) && '-' !in Numeral(n)
  {
    NumeralMeans(n);
  }

  /** `valueToString(LargestInt)`. */
  method IntToString(value: Int64) returns (s: string)
    ensures s == IntText(value)
  {
    hide Numeral;
    var buffer := new char[BUFFER_SIZE];
    var current := BUFFER_SIZE;
    if value == MIN_INT {
      current := UintToString(MAX_INT + 1, buffer, current);
      current := MinusSign(buffer, current, MAX_INT + 1);
    } else if value < 0 {
      current := UintToString(-value, buffer, current);
      current := MinusSign(buffer, current, -value);
    } else {
      current := UintToString(value, buffer, current);
    }
    assert current >= 0;
    ghost var magnitude: nat := if value < 0 then 0 - (value as int) else value;
    NumeralNoNul(magnitude);
    s := TextFrom(buffer, current, IntText(value));
  }

  /** The sign before the digits. */
  method MinusSign(buffer: array<char>, current: nat, ghost n: nat) returns (start: nat)
    requires buffer.Length == BUFFER_SIZE && 1 <= current <= 24
    requires buffer[current..24] == Numeral(n) && buffer[24] == '\0'
    modifies buffer
    ensures start == current - 1 && buffer[start..24] == "-" + Numeral(n) && buffer[24] == '\0'
  {
    hide Numeral;
    ghost var digits := buffer[current..24];
    assert digits != "";
    start := current - 1;
    buffer[start] := '-';
    assert buffer[start..24] == "-" + digits;
  }

  /** `valueToString(LargestUInt)`. */
  method UIntToString(value: UInt64) returns (s: string)
    ensures s == IntText(value)
  {
    var buffer := new char[BUFFER_SIZE];
    var current := UintToString(value, buffer, BUFFER_SIZE);
    assert current >= 0;
    NumeralNoNul(value);
    s := TextFrom(buffer, current, IntText(value));
  }

  // ---------------------------------------------------------------- reading

  function Unsigned(t: string): string { if t != "" && t[0] == '-' then t[1..] else t }

  /** An optional minus sign and any number of digits; the reader takes a lone minus sign for zero. */
  predicate IntegerToken(t: string) { forall c | c in Unsigned(t) :: IsNum(c) }

  function IntegerValue(t: string): int {
    if t != "" && t[0] == '-' then -(Decimal(t[1..]) as int) else Decimal(t)
  }

  /** The value for an integer: unsigned only beyond the signed range. */
  function Integer(i: int): Value
    requires MIN_INT <= i <= MAX_UINT
  {
    if i <= MAX_INT then Int(i) else UInt(i)
  }

  /** The integer part of `decodeNumber`: none when the token goes to `decodeDouble`. */
  method DecodeInteger(t: string) returns (r: Option<Value>)
    requires t != ""
    ensures r.Some? <==> IntegerToken(t) && MIN_INT <= IntegerValue(t) <= MAX_UINT
    ensures r.Some? ==> r.value == Integer(IntegerValue(t))
  {
    hide Decimal;
    var negative := t[0] == '-';
    var first := if negative then 1 else 0;
    var threshold, lastDigit := 1844674407370955161, 5;
    if negative { threshold, lastDigit := 922337203685477580, 8; }
    ghost var digits := Unsigned(t);
    assert digits == t[first..] && t[first..first] == "";
    DecimalSnoc("", '0');
    var value := 0;
    var current := first;
    while current < |t|
      invariant first <= current <= |t| && value == Decimal(t[first..current])
      invariant forall c | c in t[first..current] :: IsNum(c)
      invariant value <= if negative then 0x8000_0000_0000_0000 else MAX_UINT
    {
      var c := t[current];
      assert c == digits[current - first] && c in digits;
      ghost var before := t[first..current];
      current := current + 1;
      if !IsNum(c) { return None; }
      assert t[first..current] == before + [c];
      DecimalSnoc(before, c);
      var digit := c as int - '0' as int;
      if value >= threshold {
        if value > threshold || current != |t| || digit > lastDigit {
          TooLarge(t, first, current, threshold, lastDigit);
          return None;
        }
      }
      value := value * 10 + digit;
    }
    assert t[first..current] == digits;
    if negative {
      var last := value % 10;
      r := Some(Int(-(value / 10) * 10 - last));
    } else if value <= MAX_INT {
      r := Some(Int(value));
    } else {
      r := Some(UInt(value));
    }
  }

  /** Giving up is right: the whole token is out of range, or not all digits. */
  lemma TooLarge(t: string, first: nat, current: nat, threshold: nat, lastDigit: nat)
    requires t != "" && first == (if t[0] == '-' then 1 else 0) && first < current <= |t|
    requires if first == 1 then threshold == 922337203685477580 && lastDigit == 8
             else threshold == 1844674407370955161 && lastDigit == 5
    requires IsNum(t[current - 1])
    requires var value := Decimal(t[first..current - 1]);
             value >= threshold && (value > threshold || current != |t| || DigitValue(t[current - 1]) > lastDigit)
    ensures IntegerToken(t) ==> !(MIN_INT <= IntegerValue(t) <= MAX_UINT)
  {
    hide Decimal;
    var before, c := t[first..current - 1], t[current - 1];
    DecimalSnoc(before, c);
    assert t[first..] == (before + [c]) + t[current..];
    DecimalGrows(before + [c], t[current..]);
    if IntegerToken(t) && current < |t| {
      var d := t[current];
      assert d == Unsigned(t)[current - first] && d in Unsigned(t);
      DecimalSnoc(before + [c], d);
      assert t[first..] == (before + [c] + [d]) + t[current + 1..];
      DecimalGrows(before + [c] + [d], t[current + 1..]);
    }
  }

  /** Reading undoes writing, on every 64-bit integer. */
  lemma IntegerRoundTrip(i: int)
    requires MIN_INT <= i <= MAX_UINT
    ensures IntegerToken(IntText(i)) && IntegerValue(IntText(i)) == i
  {
    hide Decimal, Numeral;
    if i < 0 {
      NumeralMeans(-i);
      assert IntText(i)[1..] == Numeral(-i);
    } else {
      NumeralMeans(i);
      assert Numeral(i)[0] in Numeral(i);
    }
  }
}
