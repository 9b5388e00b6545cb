/** Decimal numerals. */
module Decimals {
  import opened HttpTypes

  predicate Digits(v: string) { v != "" && forall c | c in v :: IsNum(c) }

  function DigitValue(c: char): (d: nat)
    ensures d <= 9
  {
    if IsNum(c) then c as int - '0' as int else 0
  }

  function Decimal(v: string): nat {
    if v == "" then 0 else Decimal(v[..|v| - 1]) * 10 + DigitValue(v[|v| - 1])
  }

  lemma DecimalSnoc(a: string, c: char)
    ensures Decimal(a + [c]) == Decimal(a) * 10 + DigitValue(c)
    ensures Decimal("") == 0
  {
    assert (a + [c])[..|a|] == a;
  }

  lemma DigitsInit(v: string)
    requires Digits(v)
    ensures var k := |v| - 1;
            && v == v[..k] + [v[k]] && IsNum(v[k])
            && (if k == 0 then v == [v[k]] && Decimal(v) == DigitValue(v[k])
                else Digits(v[..k]) && Decimal(v) == Decimal(v[..k]) * 10 + DigitValue(v[k]))
  {
    hide Decimal, IsNum, DigitValue;
    var k := |v| - 1;
    assert v == v[..k] + [v[k]];
    DecimalSnoc(v[..k], v[k]);
    assert v[k] in v;
    assert forall c | c in v[..k] :: c in v;
  }

  lemma {:induction false} DecimalGrows(a: string, b: string)
    ensures Decimal(a) <= Decimal(a + b)
    decreases |b|
  {
    if b == "" {
      assert a + b == a;
    } else {
      DecimalGrows(a, b[..|b| - 1]);
      assert a + b == (a + b[..|b| - 1]) + [b[|b| - 1]];
      DecimalSnoc(a + b[..|b| - 1], b[|b| - 1]);
    }
  }

  // ---------------------------------------------------------------- numerals of numbers

  function DigitChar(d: nat): char
    requires d < 10
  {
    '0' + d as char
  }

  /** The shortest numeral of a number. */
  function Numeral(n: nat): (s: string)
    ensures s != ""
  {
    if n < 10 then [DigitChar(n)] else Numeral(n / 10) + [DigitChar(n % 10)]
  }

  lemma {:induction false} NumeralMeans(n: nat)
    ensures Digits(Numeral(n)) && Decimal(Numeral(n)) == n
    ensures |Numeral(n)| > 1 ==> Numeral(n)[0] != '0'
    decreases n
  {
    hide Decimal;
    if n < 10 {
      DecimalSnoc("", DigitChar(n));
      assert "" + [DigitChar(n)] == Numeral(n);
    } else {
      NumeralMeans(n / 10);
      DecimalSnoc(Numeral(n / 10), DigitChar(n % 10));
      assert Numeral(n / 10)[0] == Numeral(n)[0];
      if |Numeral(n / 10)| == 1 { assert n / 10 < 10; LeadingDigit(n / 10); }
    }
  }

  lemma LeadingDigit(n: nat)
    requires 0 < n < 10
    ensures Numeral(n)[0] != '0'
  {}

  function Pow10(k: nat): nat { if k == 0 then 1 else 10 * Pow10(k - 1) }

  lemma {:induction false} NumeralLength(n: nat, k: nat)
    requires k > 0 && n < Pow10(k)
    ensures |Numeral(n)| <= k
    decreases k
  {
    if n >= 10 { NumeralLength(n / 10, k - 1); }
  }

  /** 64 bits take at most 20 digits. */
  lemma NumeralFits(n: nat)
    requires n <= 0xFFFF_FFFF_FFFF_FFFF
    ensures |Numeral(n)| <= 20
  {
    assert Pow10(5) == 100_000;
    assert Pow10(10) == 10_000_000_000;
    assert Pow10(15) == 1_000_000_000_000_000;
    assert Pow10(20) == 100_000_000_000_000_000_000;
    NumeralLength(n, 20);
  }
}
