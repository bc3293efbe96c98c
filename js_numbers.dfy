/** JavaScript numbers as the extension uses them: parsing with `parseFloat`,
    rounding with `toFixed`, and conversion to a string. A number is NaN or a
    finite value, the value an unbounded `real` (IEEE double rounding is not
    modelled). */
module JsNumbers {
  import opened JsStrings

  datatype Number = NaN | Finite(value: real)

  predicate IsDigit(c: char) { '0' <= c <= '9' }

  function DigitValue(c: char): (d: nat)
    requires IsDigit(c)
    ensures d < 10
  {
    (c as int) - ('0' as int)
  }

  function DigitChar(d: nat): (c: char)
    requires d < 10
    ensures IsDigit(c) && DigitValue(c) == d
  {
    (('0' as int) + d) as char
  }

  function Pow10(n: nat): (p: nat)
    ensures p >= 1
  {
    if n == 0 then 1 else 10 * Pow10(n - 1)
  }

  predicate AllDigits(s: string) {
    forall i :: 0 <= i < |s| ==> IsDigit(s[i])
  }

  /** The value of a string of decimal digits. */
  function DigitsValue(s: string): nat
    requires AllDigits(s)
    decreases |s|
  {
    if s == [] then 0 else 10 * DigitsValue(s[..|s| - 1]) + DigitValue(s[|s| - 1])
  }

  /** The decimal numeral of `n`, without leading zeros; reading it back gives `n`. */
  function NatToString(n: nat): (s: string)
    ensures |s| >= 1 && AllDigits(s) && DigitsValue(s) == n
  {
    if n < 10 then [DigitChar(n)]
    else
      var h := NatToString(n / 10);
      var s := h + [DigitChar(n % 10)];
      assert s[..|s| - 1] == h;
      s
  }

  /** A two-digit number is written as its two digits. */
  lemma TwoDigitString(a: nat, b: nat)
    requires 1 <= a < 10 && b < 10
    ensures NatToString(10 * a + b) == [DigitChar(a), DigitChar(b)]
  {
    assert (10 * a + b) / 10 == a;
    assert (10 * a + b) % 10 == b;
  }

  /** So a two-digit whole number with two decimals reads "ab.00". */
  lemma TwoDigitFixedText(a: nat, b: nat)
    requires 1 <= a < 10 && b < 10
    ensures NatToString(10 * a + b) + "." + "00" == [DigitChar(a), DigitChar(b), '.', '0', '0']
  {
    TwoDigitString(a, b);
  }

  lemma {:induction false} NatToStringLength(n: nat, k: nat)
    requires k >= 1 && n < Pow10(k)
    ensures |NatToString(n)| <= k
  {
    if n >= 10 {
      assert k >= 2;
      assert n / 10 < Pow10(k - 1);
      NatToStringLength(n / 10, k - 1);
    }
  }

  lemma {:induction false} DigitsValueAppend(a: string, b: string)
    requires AllDigits(a) && AllDigits(b)
    ensures AllDigits(a + b)
    ensures DigitsValue(a + b) == DigitsValue(a) * Pow10(|b|) + DigitsValue(b)
    decreases |b|
  {
    forall i | 0 <= i < |a + b| ensures IsDigit((a + b)[i]) {
      if i < |a| {
        assert (a + b)[i] == a[i];
      } else {
        assert (a + b)[i] == b[i - |a|];
      }
    }
    if b == [] {
      assert a + b == a;
    } else {
      var b' := b[..|b| - 1];
      assert AllDigits(b') by {
        assert forall i :: 0 <= i < |b'| ==> b'[i] == b[i];
      }
      assert (a + b)[..|a + b| - 1] == a + b';
      assert (a + b)[|a + b| - 1] == b[|b| - 1];
      DigitsValueAppend(a, b');
      ShiftDigit(DigitsValue(a), Pow10(|b'|), DigitsValue(b'), DigitValue(b[|b| - 1]));
    }
  }

  lemma ShiftDigit(va: nat, p: nat, vb: nat, d: nat)
    ensures 10 * (va * p + vb) + d == va * (10 * p) + (10 * vb + d)
  {
  }

  /** `n` zero digits. */
  function Zeros(n: nat): (s: string)
    ensures |s| == n && AllDigits(s) && DigitsValue(s) == 0
  {
    if n == 0 then ""
    else
      var s := Zeros(n - 1) + "0";
      assert s[..|s| - 1] == Zeros(n - 1);
      s
  }

  /** `s.padStart(width, "0")` for a digit string: same value, at least `width` digits. */
  function PadLeft(s: string, width: nat): (r: string)
    requires AllDigits(s)
    ensures AllDigits(r) && DigitsValue(r) == DigitsValue(s)
    ensures |r| == if |s| >= width then |s| else width
  {
    if |s| >= width then s
    else
      DigitsValueAppend(Zeros(width - |s|), s);
      Zeros(width - |s|) + s
  }

  /** The length of the run of digits at the start of `s`. */
  function DigitRun(s: string): (n: nat)
    ensures n <= |s| && AllDigits(s[..n]) && (n == |s| || !IsDigit(s[n]))
  {
    if s != [] && IsDigit(s[0]) then
      var k := 1 + DigitRun(s[1..]);
      assert s[..k] == [s[0]] + s[1..][..k - 1];
      k
    else 0
  }

  lemma {:induction false} DigitRunOf(a: string, b: string)
    requires AllDigits(a) && (b == [] || !IsDigit(b[0]))
    ensures DigitRun(a + b) == |a|
    decreases |a|
  {
    if a == [] {
      assert a + b == b;
    } else {
      assert (a + b)[1..] == a[1..] + b;
      DigitRunOf(a[1..], b);
    }
  }

  /** A digit string read as the digits after a decimal point. */
  function FractionValue(ds: string): (v: real)
    requires AllDigits(ds)
    ensures 0.0 <= v
  {
    if ds == [] then 0.0 else (DigitValue(ds[0]) as real + FractionValue(ds[1..])) / 10.0
  }

  function Negate(n: Number): Number {
    if n.NaN? then NaN else Finite(-n.value)
  }

  function Add(a: Number, b: Number): Number {
    if a.NaN? || b.NaN? then NaN else Finite(a.value + b.value)
  }

  function Sub(a: Number, b: Number): Number {
    if a.NaN? || b.NaN? then NaN else Finite(a.value - b.value)
  }

  /** The unsigned part of `parseFloat`: the longest prefix of the form
      digits [ "." digits ] or "." digits is read; NaN when `t` starts with
      neither a digit nor a "." followed by a digit. */
  function ParseUnsigned(t: string): (r: Number)
    ensures r.NaN? <==> !(t != [] && IsDigit(t[0])) && !(|t| >= 2 && t[0] == '.' && IsDigit(t[1]))
    ensures r.Finite? ==> r.value >= 0.0
  {
    var i := DigitRun(t);
    if i < |t| && t[i] == '.' then
      var f := DigitRun(t[i + 1..]);
      if i == 0 && f == 0 then NaN
      else Finite(DigitsValue(t[..i]) as real + FractionValue(t[i + 1..][..f]))
    else if i == 0 then NaN
    else Finite(DigitsValue(t[..i]) as real)
  }

  /** `parseFloat(s)`: leading white space is skipped, an optional sign is
      read, then the unsigned decimal prefix. */
  function ParseFloat(s: string): Number {
    var t := TrimStart(s);
    if t != [] && t[0] == '-' then Negate(ParseUnsigned(t[1..]))
    else if t != [] && t[0] == '+' then ParseUnsigned(t[1..])
    else ParseUnsigned(t)
  }

  /** Without leading white space or a sign, `parseFloat` is the unsigned reader. */
  lemma ParseFloatPlain(s: string)
    requires s == [] || (!IsWhitespace(s[0]) && s[0] != '-' && s[0] != '+')
    ensures ParseFloat(s) == ParseUnsigned(s)
  {
    TrimStartPlain(s);
  }

  predicate IsDigitOrDot(c: char) { IsDigit(c) || c == '.' }

  /** A string of digits and dots, as left by `replace(/[^0-9.]/g, '')`,
      never parses to a negative number. */
  lemma ParseFloatOfDigitsAndDots(s: string)
    requires forall i :: 0 <= i < |s| ==> IsDigitOrDot(s[i])
    ensures ParseFloat(s) == ParseUnsigned(s)
    ensures ParseFloat(s).Finite? ==> ParseFloat(s).value >= 0.0
  {
    if s != [] {
      assert IsDigitOrDot(s[0]);
    }
    ParseFloatPlain(s);
  }

  /** The integer nearest to `y`, the larger one on a tie (the choice
      `Number.prototype.toFixed` makes). */
  function RoundHalfUp(y: real): (r: int)
    ensures y >= 0.0 ==> r >= 0
  {
    (y + 0.5).Floor
  }

  /** `y * 10^d`, as `d` multiplications by ten. */
  function MulPow10(y: real, d: nat): (r: real)
    ensures y >= 0.0 ==> r >= 0.0
  {
    if d == 0 then y else MulPow10(y, d - 1) * 10.0
  }

  /** `y / 10^d`, as `d` divisions by ten. */
  function DivPow10(y: real, d: nat): (r: real)
    ensures y >= 0.0 ==> r >= 0.0
  {
    if d == 0 then y else DivPow10(y, d - 1) / 10.0
  }

  lemma {:induction false} MulPow10Nat(k: nat, d: nat)
    ensures MulPow10(k as real, d) == (k * Pow10(d)) as real
  {
    if d > 0 {
      MulPow10Nat(k, d - 1);
      assert k * Pow10(d) == (k * Pow10(d - 1)) * 10;
    }
  }

  lemma {:induction false} DivPow10Add(a: real, b: real, d: nat)
    ensures DivPow10(a + b, d) == DivPow10(a, d) + DivPow10(b, d)
  {
    if d > 0 {
      DivPow10Add(a, b, d - 1);
    }
  }

  lemma {:induction false} DivPow10Times10(y: real, d: nat)
    ensures DivPow10(y * 10.0, d) == DivPow10(y, d) * 10.0
  {
    if d > 0 {
      DivPow10Times10(y, d - 1);
    }
  }

  lemma {:induction false} DivMulPow10(y: real, d: nat)
    ensures DivPow10(MulPow10(y, d), d) == y
  {
    if d > 0 {
      DivPow10Times10(MulPow10(y, d - 1), d - 1);
      DivMulPow10(y, d - 1);
    }
  }

  function Magnitude(x: real): (m: real)
    ensures m >= 0.0
  {
    if x < 0.0 then -x else x
  }

  /** A non-negative value rounded to `d` decimals, ties going up. */
  function RoundMagnitude(y: real, d: nat): (r: real)
    requires y >= 0.0
    ensures r >= 0.0
  {
    DivPow10(RoundHalfUp(MulPow10(y, d)) as real, d)
  }

  /** The value `x.toFixed(d)` denotes: the magnitude rounded to `d`
      decimals, the sign kept. */
  function RoundTo(x: real, d: nat): real {
    if x < 0.0 then -RoundMagnitude(Magnitude(x), d) else RoundMagnitude(x, d)
  }

  /** The digits of `x.toFixed(d)` for `x >= 0`. */
  function FixedDigits(x: real, d: nat): string
    requires x >= 0.0
  {
    var n: nat := RoundHalfUp(MulPow10(x, d));
    if d == 0 then NatToString(n) else PointDigits(n, d)
  }

  /** The digits of `n` above its last `d`. */
  function Quot(n: nat, d: nat): nat {
    if d == 0 then n else Quot(n / 10, d - 1)
  }

  /** The last `d` digits of `n`. */
  function Rem(n: nat, d: nat): (r: nat)
    ensures r < Pow10(d)
  {
    if d == 0 then 0 else n % 10 + 10 * Rem(n / 10, d - 1)
  }

  lemma {:induction false} QuotRem(n: nat, d: nat)
    ensures n == Quot(n, d) * Pow10(d) + Rem(n, d)
  {
    if d > 0 {
      QuotRem(n / 10, d - 1);
      QuotRemStep(n, Quot(n / 10, d - 1), Pow10(d - 1), Rem(n / 10, d - 1));
    }
  }

  lemma QuotRemStep(n: nat, q: nat, p: nat, r: nat)
    requires n / 10 == q * p + r
    ensures n == q * (10 * p) + (n % 10 + 10 * r)
  {
    assert q * (10 * p) == 10 * (q * p);
  }

  /** `n / 10^d` written with its last `d` digits after a decimal point. */
  function PointDigits(n: nat, d: nat): string
    requires d >= 1
  {
    NatToString(Quot(n, d)) + "." + PadLeft(NatToString(Rem(n, d)), d)
  }

  /** `x.toFixed(d)`. Values of 1e21 and more, which JavaScript writes in
      exponent form, are written out in full. */
  function ToFixed(x: real, d: nat): string {
    if x < 0.0 then "-" + FixedDigits(Magnitude(x), d) else FixedDigits(x, d)
  }

  function NumberToFixed(n: Number, d: nat): string {
    if n.NaN? then "NaN" else ToFixed(n.value, d)
  }

  lemma ParseNatToString(n: nat)
    ensures IsDigit(NatToString(n)[0])
    ensures ParseUnsigned(NatToString(n)) == Finite(n as real)
  {
    var s := NatToString(n);
    DigitRunOf(s, "");
    assert s + "" == s;
    assert s[..|s|] == s;
  }

  /** digits "." digits is read in full. */
  lemma ParseDecimal(a: string, b: string)
    requires |a| >= 1 && AllDigits(a) && AllDigits(b)
    ensures ParseUnsigned(a + "." + b) == Finite(DigitsValue(a) as real + FractionValue(b))
  {
    var s := a + "." + b;
    var i := DigitRun(s);
    assert i == |a| && s[i] == '.' by {
      assert s == a + ("." + b);
      DigitRunOf(a, "." + b);
    }
    assert s[..i] == a;
    var rest := s[i + 1..];
    assert rest == b;
    var f := DigitRun(rest);
    assert f == |b| by {
      DigitRunOf(b, "");
      assert b + "" == b;
    }
    assert rest[..f] == b;
  }

  /** `parseFloat` of "a.b" for digit strings `a` (not empty) and `b`. */
  lemma ParseFloatDecimal(a: string, b: string)
    requires |a| >= 1 && AllDigits(a) && AllDigits(b)
    ensures ParseFloat(a + "." + b) == Finite(DigitsValue(a) as real + FractionValue(b))
  {
    ParseDecimal(a, b);
    assert (a + "." + b)[0] == a[0];
    ParseFloatStartingWithDigit(a + "." + b);
  }

  /** `parseFloat` of a digit string is its value. */
  lemma ParseFloatDigits(t: string)
    requires |t| >= 1 && AllDigits(t)
    ensures ParseFloat(t) == Finite(DigitsValue(t) as real)
  {
    ParseFloatStartingWithDigit(t);
    DigitRunOf(t, "");
    assert t + "" == t;
    assert t[..|t|] == t;
  }

  /** A fraction of zeros is worth nothing. */
  lemma {:induction false} FractionOfZeros(ds: string)
    requires forall i :: 0 <= i < |ds| ==> ds[i] == '0'
    ensures AllDigits(ds) && FractionValue(ds) == 0.0
    decreases |ds|
  {
    if ds != [] {
      FractionOfZeros(ds[1..]);
    }
  }

  lemma {:induction false} FractionValueIsDivPow10(ds: string)
    requires AllDigits(ds)
    ensures FractionValue(ds) == DivPow10(DigitsValue(ds) as real, |ds|)
    decreases |ds|
  {
    if ds != [] {
      var c := ds[..1];
      var r := ds[1..];
      assert ds == c + r;
      FractionValueIsDivPow10(r);
      assert c[..0] == [];
      assert DigitsValue(c) == DigitValue(ds[0]);
      DigitsValueAppend(c, r);
      var k := DigitValue(ds[0]);
      var dr := DigitsValue(r) as real;
      assert DigitsValue(ds) as real == (k * Pow10(|r|)) as real + dr;
      MulPow10Nat(k, |r|);
      DivMulPow10(k as real, |r|);
      DivPow10Add((k * Pow10(|r|)) as real, dr, |r|);
    }
  }

  /** Splitting off the last `d` digits before dividing by `10^d`. */
  lemma DivPow10QuotRem(n: nat, d: nat)
    ensures DivPow10(n as real, d) == Quot(n, d) as real + DivPow10(Rem(n, d) as real, d)
  {
    var q := Quot(n, d);
    var r := Rem(n, d);
    QuotRem(n, d);
    assert n as real == (q * Pow10(d)) as real + r as real;
    DivPow10Add((q * Pow10(d)) as real, r as real, d);
    MulPow10Nat(q, d);
    DivMulPow10(q as real, d);
  }

  lemma ParsePointDigits(n: nat, d: nat)
    requires d >= 1
    ensures IsDigit(PointDigits(n, d)[0])
    ensures ParseUnsigned(PointDigits(n, d)) == Finite(DivPow10(n as real, d))
  {
    var r := Rem(n, d);
    var a := NatToString(Quot(n, d));
    var b := PadLeft(NatToString(r), d);
    assert |b| == d by {
      NatToStringLength(r, d);
    }
    ParseDecimal(a, b);
    assert FractionValue(b) == DivPow10(r as real, d) by {
      FractionValueIsDivPow10(b);
    }
    DivPow10QuotRem(n, d);
  }

  lemma ParseFixedDigits(x: real, d: nat)
    requires x >= 0.0
    ensures FixedDigits(x, d) != [] && IsDigit(FixedDigits(x, d)[0])
    ensures ParseUnsigned(FixedDigits(x, d)) == Finite(RoundMagnitude(x, d))
  {
    var n: nat := RoundHalfUp(MulPow10(x, d));
    if d == 0 {
      ParseNatToString(n);
    } else {
      ParsePointDigits(n, d);
    }
  }

  /** A string starting with a digit is parsed by the unsigned reader alone. */
  lemma ParseFloatStartingWithDigit(s: string)
    requires s != [] && IsDigit(s[0])
    ensures ParseFloat(s) == ParseUnsigned(s)
  {
    ParseFloatPlain(s);
  }

  lemma ParseFloatNegative(s: string)
    requires s != [] && IsDigit(s[0])
    ensures ParseFloat("-" + s) == Negate(ParseUnsigned(s))
  {
    var t := "-" + s;
    TrimStartPlain(t);
    assert t[1..] == s;
  }

  lemma ParseToFixedNegative(x: real, d: nat)
    requires x < 0.0
    ensures ParseFloat(ToFixed(x, d)) == Finite(RoundTo(x, d))
  {
    var m := Magnitude(x);
    var s := FixedDigits(m, d);
    assert ToFixed(x, d) == "-" + s;
    ParseFixedDigits(m, d);
    ParseFloatNegative(s);
    assert RoundTo(x, d) == -RoundMagnitude(m, d);
  }

  /** Reading back what `toFixed` wrote gives the rounded value. */
  lemma ParseToFixed(x: real, d: nat)
    ensures ParseFloat(ToFixed(x, d)) == Finite(RoundTo(x, d))
  {
    if x < 0.0 {
      ParseToFixedNegative(x, d);
    } else {
      var s := FixedDigits(x, d);
      assert ToFixed(x, d) == s;
      ParseFixedDigits(x, d);
      ParseFloatStartingWithDigit(s);
    }
  }

  lemma ParseNumberToFixed(n: Number, d: nat)
    ensures ParseFloat(NumberToFixed(n, d)) == if n.NaN? then NaN else Finite(RoundTo(n.value, d))
  {
    if n.NaN? {
      ParseFloatPlain("NaN");
    } else {
      ParseToFixed(n.value, d);
    }
  }

  lemma {:induction false} MulPow10Monotone(x: real, y: real, d: nat)
    requires x <= y
    ensures MulPow10(x, d) <= MulPow10(y, d)
  {
    if d > 0 {
      MulPow10Monotone(x, y, d - 1);
    }
  }

  lemma {:induction false} DivPow10Monotone(x: real, y: real, d: nat)
    requires x <= y
    ensures DivPow10(x, d) <= DivPow10(y, d)
  {
    if d > 0 {
      DivPow10Monotone(x, y, d - 1);
    }
  }

  lemma RoundHalfUpMonotone(x: real, y: real)
    requires x <= y
    ensures RoundHalfUp(x) <= RoundHalfUp(y)
  {
  }

  /** Rounding to `d` decimals keeps the order of non-negative values. */
  lemma RoundMagnitudeMonotone(x: real, y: real, d: nat)
    requires 0.0 <= x <= y
    ensures RoundMagnitude(x, d) <= RoundMagnitude(y, d)
  {
    MulPow10Monotone(x, y, d);
    RoundHalfUpMonotone(MulPow10(x, d), MulPow10(y, d));
    DivPow10Monotone(RoundHalfUp(MulPow10(x, d)) as real, RoundHalfUp(MulPow10(y, d)) as real, d);
  }

  /** `toFixed(d)` moves a value by at most half a unit of its last decimal:
      it lies in (x - u, x + u] for u = 0.5 / 10^d. */
  lemma RoundMagnitudeError(x: real, d: nat)
    requires x >= 0.0
    ensures x - DivPow10(0.5, d) < RoundMagnitude(x, d) <= x + DivPow10(0.5, d)
  {
    var m := MulPow10(x, d);
    var n := RoundHalfUp(m) as real;
    assert m - 0.5 < n <= m + 0.5;
    DivMulPow10(x, d);
    DivPow10Add(m, n - m, d);
    assert n == m + (n - m);
    DivPow10Add(n - m, 0.5 - (n - m), d);
    DivPow10Add(-0.5, (n - m) + 0.5, d);
    assert DivPow10(0.5 - (n - m), d) >= 0.0;
    assert DivPow10((n - m) + 0.5, d) >= 0.0;
    assert DivPow10((n - m) + 0.5, d) != 0.0 by {
      DivPow10Positive((n - m) + 0.5, d);
    }
    DivPow10Add(0.5, -0.5, d);
  }

  lemma {:induction false} DivPow10Positive(y: real, d: nat)
    requires y > 0.0
    ensures DivPow10(y, d) > 0.0
  {
    if d > 0 {
      DivPow10Positive(y, d - 1);
    }
  }

  /** A whole number written with two decimals: its numeral and ".00". */
  lemma ToFixedWhole(n: nat)
    ensures ToFixed(n as real, 2) == NatToString(n) + "." + "00"
  {
    ToFixedScaled(n);
    PointDigitsHundred(n);
  }

  lemma ToFixedScaled(n: nat)
    ensures ToFixed(n as real, 2) == PointDigits(n * 100, 2)
  {
    ScaleWhole(n);
  }

  lemma PointDigitsHundred(n: nat)
    ensures PointDigits(n * 100, 2) == NatToString(n) + "." + "00"
  {
    QuotRemHundred(n);
    PadZero();
  }

  lemma ScaleWhole(n: nat)
    ensures MulPow10(n as real, 2) == (n * 100) as real
    ensures RoundHalfUp((n * 100) as real) == n * 100
  {
    MulPow10Nat(n, 2);
    assert Pow10(2) == 100;
  }

  lemma QuotRemHundred(n: nat)
    ensures Quot(n * 100, 2) == n && Rem(n * 100, 2) == 0
  {
    var m := n * 100;
    assert m / 10 == n * 10 && m % 10 == 0;
    assert (n * 10) / 10 == n && (n * 10) % 10 == 0;
    assert Quot(m, 2) == Quot(n * 10, 1) == Quot(n, 0);
    assert Rem(m, 2) == 10 * Rem(n * 10, 1);
    assert Rem(n * 10, 1) == 10 * Rem(n, 0);
  }

  lemma PadZero()
    ensures PadLeft(NatToString(0), 2) == "00"
  {
    assert NatToString(0) == "0";
    assert Zeros(1) == "0";
  }

  /** The number of decimals `NumberToString` writes at most. */
  const MaxFractionDigits: nat := 20

  /** The first `k` decimals of a fraction, stopping early once it is exhausted. */
  function FractionDigits(f: real, k: nat): (s: string)
    requires 0.0 <= f < 1.0
    ensures AllDigits(s) && |s| <= k
    decreases k
  {
    if k == 0 || f == 0.0 then ""
    else
      var d := (f * 10.0).Floor;
      [DigitChar(d)] + FractionDigits(f * 10.0 - d as real, k - 1)
  }

  function DropTrailingZeros(s: string): (r: string)
    requires AllDigits(s)
    ensures AllDigits(r) && r <= s
  {
    if s != [] && s[|s| - 1] == '0' then DropTrailingZeros(s[..|s| - 1]) else s
  }

  function NonNegativeToString(x: real): (s: string)
    requires x >= 0.0
    ensures forall c :: c in s ==> IsDigitOrDot(c)
  {
    var w: nat := x.Floor;
    var ds := DropTrailingZeros(FractionDigits(x - w as real, MaxFractionDigits));
    NatToString(w) + (if ds == [] then "" else "." + ds)
  }

  /** `String(n)` for a number: "NaN", or the decimal expansion with an
      optional minus sign (at most `MaxFractionDigits` decimals). The text
      never contains anything but digits, '.', '-' and the letters of "NaN". */
  function NumberToString(n: Number): (s: string)
    ensures forall c :: c in s ==> IsDigitOrDot(c) || c == '-' || c == 'N' || c == 'a'
  {
    if n.NaN? then "NaN"
    else if n.value < 0.0 then "-" + NonNegativeToString(-n.value)
    else NonNegativeToString(n.value)
  }

  /** Whole numbers are written as their numeral. */
  lemma NumberToStringOfNat(n: nat)
    ensures NumberToString(Finite(n as real)) == NatToString(n)
  {
    var x := n as real;
    assert x.Floor == n;
    assert FractionDigits(x - n as real, MaxFractionDigits) == "";
  }
}
