/** Positional numerals: the digits a number prints as, and their value. */
module Numerals {

  /** The bases numbers are printed in here. */
  type Radix = b: nat | b == 8 || b == 10 witness 10

  function Pow(base: Radix, e: nat): (p: nat)
    ensures p >= 1
  {
    if e == 0 then 1 else base * Pow(base, e - 1)
  }

  /** The digits of `n`, most significant first, none leading but for 0 itself. */
  function Digits(n: nat, base: Radix): (ds: seq<nat>)
    ensures ds != []
    ensures forall i :: 0 <= i < |ds| ==> ds[i] < base
    decreases n
  {
    if n < base then [n] else Digits(n / base, base) + [n % base]
  }

  function Value(ds: seq<nat>, base: Radix): nat {
    if ds == [] then 0 else Value(ds[..|ds| - 1], base) * base + ds[|ds| - 1]
  }

  lemma {:induction false} DigitsValue(n: nat, base: Radix)
    ensures Value(Digits(n, base), base) == n
    decreases n
  {
    if n < base {
      assert Digits(n, base)[..0] == [];
    } else {
      DigitsValue(n / base, base);
      var ds := Digits(n, base);
      assert ds[..|ds| - 1] == Digits(n / base, base);
      assert n == n / base * base + n % base;
    }
  }

  lemma DigitsInjective(m: nat, n: nat, base: Radix)
    requires Digits(m, base) == Digits(n, base)
    ensures m == n
  {
    DigitsValue(m, base);
    DigitsValue(n, base);
  }

  /** As many digits as fit `w`: exactly the numbers below base^w. */
  lemma {:induction false} DigitsFit(n: nat, base: Radix, w: nat)
    requires w >= 1
    ensures |Digits(n, base)| <= w <==> n < Pow(base, w)
    decreases w
  {
    assert Pow(base, 1) == base * Pow(base, 0) == base;
    if w == 1 {
    } else if n < base {
      assert Pow(base, w) == base * Pow(base, w - 1);
      assert base * Pow(base, w - 1) >= base by { MulAtLeast(base, Pow(base, w - 1)); }
    } else {
      DigitsFit(n / base, base, w - 1);
      DivBelow(n, base, Pow(base, w - 1));
    }
  }

  lemma MulAtLeast(a: nat, b: nat)
    requires b >= 1
    ensures a * b >= a
  {
  }

  lemma DivBelow(n: nat, d: nat, bound: nat)
    requires d >= 1
    ensures n / d < bound <==> n < d * bound
  {
    assert n == d * (n / d) + n % d;
    if n / d < bound {
      assert d * (n / d + 1) <= d * bound;
    } else {
      assert d * (n / d) >= d * bound;
    }
  }

  /** A larger number never prints shorter. */
  lemma {:induction false} DigitsMonotone(m: nat, n: nat, base: Radix)
    requires m <= n
    ensures |Digits(m, base)| <= |Digits(n, base)|
  {
    var w := |Digits(n, base)|;
    DigitsFit(n, base, w);
    DigitsFit(m, base, w);
  }

  lemma {:induction false} ValueBound(ds: seq<nat>, base: Radix)
    requires forall i :: 0 <= i < |ds| ==> ds[i] < base
    ensures Value(ds, base) < Pow(base, |ds|)
  {
    if ds != [] {
      var init := ds[..|ds| - 1];
      ValueBound(init, base);
      assert Value(init, base) + 1 <= Pow(base, |init|);
      assert (Value(init, base) + 1) * base <= Pow(base, |init|) * base;
    }
  }

  /** Zeros in front change nothing. */
  lemma {:induction false} ValuePadded(k: nat, ds: seq<nat>, base: Radix)
    ensures Value(seq(k, _ => 0) + ds, base) == Value(ds, base)
    decreases k + |ds|
  {
    var zeros: seq<nat> := seq(k, _ => 0);
    if ds != [] {
      var init := ds[..|ds| - 1];
      ValuePadded(k, init, base);
      assert (zeros + ds)[..|zeros + ds| - 1] == zeros + init;
    } else if k > 0 {
      ValuePadded(k - 1, [], base);
      assert zeros + ds == zeros;
      assert zeros[..k - 1] == seq(k - 1, _ => 0) + [];
    } else {
      assert zeros + ds == [];
    }
  }

  lemma PowLiterals()
    ensures Pow(8, 6) == 0x40000 && Pow(8, 8) == 0x100_0000 && Pow(8, 12) == 0x10_0000_0000
  {
    assert Pow(8, 0) == 1;
    assert Pow(8, 1) == 8;
    assert Pow(8, 2) == 64;
    assert Pow(8, 3) == 512;
    assert Pow(8, 4) == 4096;
    assert Pow(8, 5) == 32768;
    assert Pow(8, 6) == 262144;
    assert Pow(8, 7) == 2097152;
    assert Pow(8, 8) == 16777216;
    assert Pow(8, 9) == 134217728;
    assert Pow(8, 10) == 1073741824;
    assert Pow(8, 11) == 8589934592;
    assert Pow(8, 12) == 68719476736;
  }

  /** `String(n)`. */
  function Decimal(n: nat): (s: string) {
    var ds := Digits(n, 10);
    seq(|ds|, i requires 0 <= i < |ds| => '0' + ds[i] as char)
  }

  /** It is the number's digits in base ten. */
  lemma DecimalReads(n: nat)
    ensures Decimal(n) != [] && (forall i :: 0 <= i < |Decimal(n)| ==> '0' <= Decimal(n)[i] <= '9')
    ensures Value(seq(|Decimal(n)|, i requires 0 <= i < |Decimal(n)| => Decimal(n)[i] as nat - '0' as nat), 10) == n
  {
    var ds := Digits(n, 10);
    assert seq(|Decimal(n)|, i requires 0 <= i < |Decimal(n)| => Decimal(n)[i] as nat - '0' as nat) == ds;
    DigitsValue(n, 10);
  }

  lemma DecimalInjective(m: nat, n: nat)
    requires Decimal(m) == Decimal(n)
    ensures m == n
  {
    var a, b := Digits(m, 10), Digits(n, 10);
    assert |a| == |b|;
    forall i | 0 <= i < |a|
      ensures a[i] == b[i]
    {
      assert Decimal(m)[i] == Decimal(n)[i];
    }
    DigitsInjective(m, n, 10);
  }
}
