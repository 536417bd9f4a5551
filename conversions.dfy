/**
 * The Python conversions the window applies to text and numbers:
 * `str()` of an int, `int()` and `float()` of a string, `str.replace(',', '')`,
 * the `{:,}` thousands grouping of an int, and `int()` of a float (truncation
 * toward zero). `float()` follows a small grammar: an optional sign, decimal
 * digits and at most one decimal point, with at least one digit.
 */
module Conversions {
  import opened Wrappers

  predicate IsDigit(c: char) { '0' <= c <= '9' }

  predicate AllDigits(s: string) { forall i :: 0 <= i < |s| ==> IsDigit(s[i]) }

  function DigitChar(d: nat): (c: char)
    requires d < 10
    ensures IsDigit(c)
  {
    ('0' as int + d) as char
  }

  function DigitValue(c: char): nat
    requires IsDigit(c)
  {
    c as int - '0' as int
  }

  function Pow10(k: nat): (p: nat)
    ensures p >= 1
  {
    if k == 0 then 1 else 10 * Pow10(k - 1)
  }

  /** The number a string of decimal digits denotes, most significant digit first. */
  function DigitsValue(s: string): nat
    requires AllDigits(s)
  {
    if s == [] then 0 else DigitsValue(s[..|s| - 1]) * 10 + DigitValue(s[|s| - 1])
  }

  lemma ShiftDigit(va: nat, pb: nat, vb: nat, last: nat)
    ensures (va * pb + vb) * 10 + last == va * (pb * 10) + (vb * 10 + last)
  {
  }

  lemma {:induction false} DigitsValueAppend(a: string, b: string)
    requires AllDigits(a) && AllDigits(b)
    ensures AllDigits(a + b)
    ensures DigitsValue(a + b) == DigitsValue(a) * Pow10(|b|) + DigitsValue(b)
  {
    if b == [] {
      assert a + b == a;
    } else {
      var b' := b[..|b| - 1];
      var ab := a + b;
      assert ab[..|ab| - 1] == a + b';
      assert ab[|ab| - 1] == b[|b| - 1];
      DigitsValueAppend(a, b');
      ShiftDigit(DigitsValue(a), Pow10(|b'|), DigitsValue(b'), DigitValue(b[|b| - 1]));
    }
  }

  /** `str(n)` for a non-negative int: decimal digits without leading zeros. */
  function NatToDecimal(n: nat): (s: string)
    ensures |s| > 0 && AllDigits(s)
    ensures s[0] == '0' ==> n == 0
  {
    if n < 10 then [DigitChar(n)] else NatToDecimal(n / 10) + [DigitChar(n % 10)]
  }

  lemma {:induction false} NatToDecimalValue(n: nat)
    ensures DigitsValue(NatToDecimal(n)) == n
  {
    var s := NatToDecimal(n);
    if n >= 10 {
      assert s[..|s| - 1] == NatToDecimal(n / 10);
      NatToDecimalValue(n / 10);
    }
  }

  /** `str(i)` for any int. */
  function IntToDecimal(i: int): string
  {
    if i < 0 then "-" + NatToDecimal(-i) else NatToDecimal(i)
  }

  /** Splits off one leading sign: the sign as +1 or -1, and the rest of the text. */
  function SplitSign(s: string): (int, string)
  {
    if |s| > 0 && s[0] == '-' then (-1, s[1..])
    else if |s| > 0 && s[0] == '+' then (1, s[1..])
    else (1, s)
  }

  /** `int(s)`: None where Python raises ValueError. */
  function ParseInt(s: string): (r: Option<int>)
    ensures r.Some? ==> |s| > 0
  {
    var (sign, digits) := SplitSign(s);
    if |digits| > 0 && AllDigits(digits) then Some(sign * DigitsValue(digits)) else None
  }

  /** `str()` and `int()` are inverse on every int. */
  lemma IntToDecimalRoundTrip(i: int)
    ensures ParseInt(IntToDecimal(i)) == Some(i)
  {
    var n: nat := if i < 0 then -i else i;
    NatToDecimalValue(n);
    var s := IntToDecimal(i);
    if i < 0 {
      assert s[1..] == NatToDecimal(n);
    } else {
      assert IsDigit(s[0]);
    }
  }

  /** Index of the first decimal point, or the length when there is none. */
  function PointIndex(s: string): (k: nat)
    ensures k <= |s|
    ensures forall i :: 0 <= i < k ==> s[i] != '.'
    ensures k < |s| ==> s[k] == '.'
  {
    if s == [] || s[0] == '.' then 0 else 1 + PointIndex(s[1..])
  }

  function ParseUnsigned(s: string): Option<real>
  {
    var k := PointIndex(s);
    var whole := s[..k];
    var fraction := if k < |s| then s[k + 1..] else [];
    if AllDigits(whole) && AllDigits(fraction) && |whole| + |fraction| > 0 then
      Some(DigitsValue(whole) as real + DigitsValue(fraction) as real / Pow10(|fraction|) as real)
    else
      None
  }

  /** `float(s)`: None where Python raises ValueError. */
  function ParseNumber(s: string): Option<real>
  {
    var (sign, rest) := SplitSign(s);
    match ParseUnsigned(rest)
    case None => None
    case Some(x) => Some(sign as real * x)
  }

  /** Digits without a point read as the whole number they denote. */
  lemma {:induction false} ParseUnsignedDigits(d: string)
    requires |d| > 0 && AllDigits(d)
    ensures ParseUnsigned(d) == Some(DigitsValue(d) as real)
  {
    var k := PointIndex(d);
    assert k == |d|;
    assert d[..k] == d;
    var fraction: string := [];
    assert DigitsValue(fraction) == 0 && Pow10(|fraction|) == 1;
  }

  /** Text `int()` accepts, `float()` accepts too, with the same value. */
  lemma IntTextIsNumber(s: string)
    requires ParseInt(s).Some?
    ensures ParseNumber(s) == Some(ParseInt(s).value as real)
  {
    var (sign, digits) := SplitSign(s);
    ParseUnsignedDigits(digits);
    assert sign == 1 || sign == -1;
    assert (sign * DigitsValue(digits)) as real == sign as real * DigitsValue(digits) as real;
  }

  /** `float()` rejects any text with a comma in it. */
  lemma CommaIsNotNumber(s: string)
    requires ',' in s
    ensures ParseNumber(s) == None
  {
    var (sign, rest) := SplitSign(s);
    assert ',' in rest by {
      var j :| 0 <= j < |s| && s[j] == ',';
      if rest != s { assert rest[j - 1] == ','; }
    }
    var j :| 0 <= j < |rest| && rest[j] == ',';
    var k := PointIndex(rest);
    if j < k {
      assert rest[..k][j] == ',';
    } else {
      assert j != k && rest[k + 1..][j - k - 1] == ',';
    }
  }

  /** `s.replace(',', '')`. */
  function RemoveCommas(s: string): (r: string)
    ensures ',' !in r
    ensures |r| <= |s|
  {
    if s == [] then [] else (if s[0] == ',' then [] else [s[0]]) + RemoveCommas(s[1..])
  }

  lemma {:induction false} RemoveCommasAppend(a: string, b: string)
    ensures RemoveCommas(a + b) == RemoveCommas(a) + RemoveCommas(b)
  {
    if a == [] {
      assert a + b == b;
    } else {
      assert (a + b)[1..] == a[1..] + b;
      RemoveCommasAppend(a[1..], b);
    }
  }

  /** Text without commas is left as it is; together with RemoveCommasAppend this fixes RemoveCommas. */
  lemma {:induction false} RemoveCommasKeeps(s: string)
    requires ',' !in s
    ensures RemoveCommas(s) == s
  {
    if s != [] {
      assert ',' !in s[1..];
      RemoveCommasKeeps(s[1..]);
    }
  }

  /** Removing commas twice is removing them once. */
  lemma RemoveCommasIdempotent(s: string)
    ensures RemoveCommas(RemoveCommas(s)) == RemoveCommas(s)
  {
    RemoveCommasKeeps(RemoveCommas(s));
  }

  /** Three digits with leading zeros, for one group of `{:,}`. */
  function ThreeDigits(r: nat): (s: string)
    requires r < 1000
    ensures |s| == 3 && AllDigits(s) && ',' !in s
  {
    [DigitChar(r / 100), DigitChar(r / 10 % 10), DigitChar(r % 10)]
  }

  /** `f"{n:,}"` for a non-negative int: digits in groups of three separated by commas. */
  function GroupedNat(n: nat): (s: string)
    ensures |s| > 0
  {
    if n < 1000 then NatToDecimal(n) else GroupedNat(n / 1000) + "," + ThreeDigits(n % 1000)
  }

  /** `f"{i:,}"` for any int. */
  function Grouped(i: int): string
  {
    if i < 0 then "-" + GroupedNat(-i) else GroupedNat(i)
  }

  lemma ThreeDigitsValue(r: nat)
    requires r < 1000
    ensures DigitsValue(ThreeDigits(r)) == r
  {
    var s := ThreeDigits(r);
    assert s[..2][..1] == [s[0]] && s[..2][..1][..0] == [];
    assert DigitsValue(s[..2][..1]) == r / 100;
    assert DigitsValue(s[..2]) == r / 100 * 10 + r / 10 % 10;
    assert DigitsValue(s) == (r / 100 * 10 + r / 10 % 10) * 10 + r % 10;
  }

  lemma GroupedNatSplit(n: nat)
    requires n >= 1000
    ensures RemoveCommas(GroupedNat(n)) == RemoveCommas(GroupedNat(n / 1000)) + ThreeDigits(n % 1000)
  {
    var g, t := GroupedNat(n / 1000), ThreeDigits(n % 1000);
    assert GroupedNat(n) == (g + ",") + t;
    RemoveCommasAppend(g + ",", t);
    RemoveCommasAppend(g, ",");
    RemoveCommasKeeps(t);
    assert RemoveCommas(",") == [] + RemoveCommas([]);
  }

  lemma {:induction false} GroupedNatDigits(n: nat)
    ensures var t := RemoveCommas(GroupedNat(n));
      |t| > 0 && AllDigits(t) && DigitsValue(t) == n
  {
    if n < 1000 {
      RemoveCommasKeeps(NatToDecimal(n));
      NatToDecimalValue(n);
    } else {
      var q, r := n / 1000, n % 1000;
      GroupedNatDigits(q);
      GroupedNatSplit(n);
      var head := RemoveCommas(GroupedNat(q));
      DigitsValueAppend(head, ThreeDigits(r));
      ThreeDigitsValue(r);
      assert Pow10(3) == 1000;
      assert DigitsValue(head + ThreeDigits(r)) == q * 1000 + r;
    }
  }

  /** The grouped display, with its commas removed, reads back as the same int. */
  lemma GroupedRoundTrip(i: int)
    ensures ParseInt(RemoveCommas(Grouped(i))) == Some(i)
  {
    var n: nat := if i < 0 then -i else i;
    GroupedNatDigits(n);
    var t := RemoveCommas(GroupedNat(n));
    if i < 0 {
      RemoveCommasAppend("-", GroupedNat(n));
      assert RemoveCommas("-") == "-";
      assert RemoveCommas(Grouped(i)) == "-" + t;
      assert ("-" + t)[1..] == t;
    } else {
      assert IsDigit(t[0]);
    }
  }

  /** Past three digits, the grouped display carries a comma. */
  lemma GroupedHasComma(i: int)
    requires i >= 1000 || i <= -1000
    ensures ',' in Grouped(i)
  {
    var n: nat := if i < 0 then -i else i;
    var g := GroupedNat(n);
    assert g[|GroupedNat(n / 1000)|] == ',';
    if i < 0 { assert Grouped(i)[|GroupedNat(n / 1000)| + 1] == ','; }
  }

  /** A grouped display, with its commas removed, reads back through `float()` as the same number. */
  lemma GroupedIsNumber(i: int)
    ensures ParseNumber(RemoveCommas(Grouped(i))) == Some(i as real)
  {
    GroupedRoundTrip(i);
    IntTextIsNumber(RemoveCommas(Grouped(i)));
  }

  /** `int(x)` for a float: truncation toward zero, not the floor. */
  function TruncateTowardZero(x: real): (n: int)
    ensures 0.0 <= x ==> n as real <= x < n as real + 1.0
    ensures x < 0.0 ==> n as real - 1.0 < x <= n as real
  {
    if x >= 0.0 then x.Floor else -((-x).Floor)
  }
}
